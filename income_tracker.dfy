/**
 * The income view: the list fetched for the selected year (or for all years),
 * the total the server reports with it, and how the replies to fetch, delete
 * and add requests change the view's state. The requests themselves are not
 * modelled; each reply is a method.
 */
module IncomeTracker {
  import opened Seqs
  import opened Outcomes

  datatype Income = Income(id: string, date: string, source: string, amount: int)

  /** What a successful fetch returns. */
  datatype IncomeReply = IncomeReply(yearIncomes: seq<Income>, yearTotal: int, allTimeTotal: int)

  datatype IncomeForm = IncomeForm(date: string, source: string, amount: string)

  const BlankForm := IncomeForm("", "", "")

  /** The year filter's value for "every year". */
  const AllYears: string := "all"

  /** The query appended to the income URL: none for every year, else `?year=<Y>`. */
  function QueryFor(yearFilter: string): (q: string)
    ensures q == "" <==> yearFilter == AllYears
    ensures yearFilter != AllYears ==> |q| == 6 + |yearFilter| && q[..6] == "?year=" && q[6..] == yearFilter
  {
    if yearFilter == AllYears then "" else "?year=" + yearFilter
  }

  /** Different filters send different queries. */
  lemma QueryInjective(a: string, b: string)
    requires QueryFor(a) == QueryFor(b)
    ensures a == b
  {
    if a != AllYears && b != AllYears {
      assert QueryFor(a)[6..] == a && QueryFor(b)[6..] == b;
    }
  }

  predicate FormFilled(f: IncomeForm) {
    f.date != "" && f.source != "" && f.amount != ""
  }

  function IdIsNot(id: string): Income -> bool {
    (x: Income) => x.id != id
  }

  /** `incomes.filter(income => income.id !== id)`: the others, in order. */
  function WithoutIncome(incomes: seq<Income>, id: string): (r: seq<Income>)
    ensures IsSubseq(r, incomes)
    ensures forall x :: x in r <==> x in incomes && x.id != id
  {
    Filter(incomes, IdIsNot(id))
  }

  /** Every entry carrying the id goes; a missing id leaves the list as it was. */
  lemma WithoutMissingIncome(incomes: seq<Income>, id: string)
    requires forall i :: 0 <= i < |incomes| ==> incomes[i].id != id
    ensures WithoutIncome(incomes, id) == incomes
  {
    FilterAll(incomes, IdIsNot(id));
  }

  /** Exactly the entries with the id are dropped: every other entry keeps its count. */
  lemma WithoutIncomeCounts(incomes: seq<Income>, id: string)
    ensures forall x :: multiset(WithoutIncome(incomes, id))[x] == if x.id != id then multiset(incomes)[x] else 0
  {
    FilterMultiset(incomes, IdIsNot(id));
  }

  class IncomeView {
    var incomes: seq<Income>
    var loading: bool
    var error: string
    var showForm: bool
    var yearFilter: string
    var totalIncome: int
    var form: IncomeForm

    constructor ()
      ensures incomes == [] && loading && error == "" && !showForm
      ensures yearFilter == AllYears && totalIncome == 0 && form == BlankForm
    {
      incomes := [];
      loading := true;
      error := "";
      showForm := false;
      yearFilter := AllYears;
      totalIncome := 0;
      form := BlankForm;
    }

    /** The year select: a new filter, which starts a new fetch. */
    method SelectYear(y: string)
      modifies this
      ensures yearFilter == y
      ensures incomes == old(incomes) && loading == old(loading) && error == old(error)
      ensures showForm == old(showForm) && totalIncome == old(totalIncome) && form == old(form)
    {
      yearFilter := y;
    }

    /** A fetch begins: `loading` is set and the query for the filter is sent. */
    method FetchStarted() returns (query: string)
      modifies this
      ensures loading && query == QueryFor(yearFilter)
      ensures incomes == old(incomes) && error == old(error) && yearFilter == old(yearFilter)
      ensures showForm == old(showForm) && totalIncome == old(totalIncome) && form == old(form)
    {
      loading := true;
      query := QueryFor(yearFilter);
    }

    /** The fetch succeeded: the year's incomes and the matching total are shown. */
    method FetchSucceeded(reply: IncomeReply)
      modifies this
      ensures incomes == reply.yearIncomes
      ensures totalIncome == if yearFilter == AllYears then reply.allTimeTotal else reply.yearTotal
      ensures error == "" && !loading
      ensures yearFilter == old(yearFilter) && showForm == old(showForm) && form == old(form)
    {
      incomes := reply.yearIncomes;
      totalIncome := if yearFilter == AllYears then reply.allTimeTotal else reply.yearTotal;
      error := "";
      loading := false;
    }

    /** The fetch failed: an error, an empty list, and the last total left in place. */
    method FetchFailed(f: Failure)
      modifies this
      ensures error == ErrorText(f, "Failed to fetch incomes", "Error loading incomes")
      ensures incomes == [] && !loading
      ensures totalIncome == old(totalIncome)
      ensures yearFilter == old(yearFilter) && showForm == old(showForm) && form == old(form)
    {
      error := ErrorText(f, "Failed to fetch incomes", "Error loading incomes");
      incomes := [];
      loading := false;
    }

    /** The delete succeeded: the entries with that id leave the list and the error clears. */
    method DeleteSucceeded(id: string)
      modifies this
      ensures incomes == WithoutIncome(old(incomes), id)
      ensures error == ""
      ensures totalIncome == old(totalIncome) && loading == old(loading)
      ensures yearFilter == old(yearFilter) && showForm == old(showForm) && form == old(form)
    {
      incomes := WithoutIncome(incomes, id);
      error := "";
    }

    method DeleteFailed(f: Failure)
      modifies this
      ensures error == ErrorText(f, "Failed to delete income", "Error deleting income")
      ensures incomes == old(incomes) && totalIncome == old(totalIncome) && loading == old(loading)
      ensures yearFilter == old(yearFilter) && showForm == old(showForm) && form == old(form)
    {
      error := ErrorText(f, "Failed to delete income", "Error deleting income");
    }

    method ToggleForm()
      modifies this
      ensures showForm == !old(showForm)
      ensures incomes == old(incomes) && loading == old(loading) && error == old(error)
      ensures yearFilter == old(yearFilter) && totalIncome == old(totalIncome) && form == old(form)
    {
      showForm := !showForm;
    }

    /** The form's inputs and its Cancel button. */
    method EditForm(f: IncomeForm, show: bool)
      modifies this
      ensures form == f && showForm == show
      ensures incomes == old(incomes) && loading == old(loading) && error == old(error)
      ensures yearFilter == old(yearFilter) && totalIncome == old(totalIncome)
    {
      form := f;
      showForm := show;
    }

    /** `handleSubmit` up to the request: an incomplete form sends nothing and changes nothing. */
    method Submit() returns (request: Option<IncomeForm>)
      ensures request.None? <==> !FormFilled(form)
      ensures request.Some? ==> request.value == form
    {
      request := if FormFilled(form) then Some(form) else None;
    }

    /** The add succeeded: the server's new income goes first, the form is cleared and hidden. */
    method AddSucceeded(created: Income)
      modifies this
      ensures incomes == [created] + old(incomes)
      ensures form == BlankForm && !showForm
      ensures totalIncome == old(totalIncome) && loading == old(loading) && error == old(error)
      ensures yearFilter == old(yearFilter)
    {
      incomes := [created] + incomes;
      form := BlankForm;
      showForm := false;
    }

    method AddFailed(f: Failure)
      modifies this
      ensures error == ErrorText(f, "Failed to add income", "Error adding income")
      ensures incomes == old(incomes) && totalIncome == old(totalIncome) && loading == old(loading)
      ensures yearFilter == old(yearFilter) && showForm == old(showForm) && form == old(form)
    {
      error := ErrorText(f, "Failed to add income", "Error adding income");
    }
  }

  /**
   * After a fetch of every year, adding an income and deleting an unrelated one
   * changes the list but the shown total stays the fetched all-time total.
   */
  method TotalOnlyFromFetch(reply: IncomeReply, created: Income, other: string) returns (shown: int, count: int)
    requires created.id != other
    requires forall i :: 0 <= i < |reply.yearIncomes| ==> reply.yearIncomes[i].id != other
    ensures shown == reply.allTimeTotal
    ensures count == |reply.yearIncomes| + 1
  {
    var view := new IncomeView();
    var _ := view.FetchStarted();
    view.FetchSucceeded(reply);
    view.AddSucceeded(created);
    WithoutMissingIncome(view.incomes, other);
    view.DeleteSucceeded(other);
    shown := view.totalIncome;
    count := |view.incomes|;
  }
}
