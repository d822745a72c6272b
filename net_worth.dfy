/**
 * The net-worth view: a form of account rows (edited, added and removed by id)
 * that is validated and turned into a snapshot request, the derived growth
 * figures and the per-snapshot account breakdown. Snapshot amounts are integers;
 * the form keeps amounts as the text typed into it.
 */
module NetWorth {
  import opened Seqs
  import opened Strings
  import opened Outcomes
  import opened Figures

  datatype Account = Account(name: string, amount: int)

  /** A stored snapshot: its accounts and their total. */
  datatype Snapshot = Snapshot(id: string, date: string, accounts: seq<Account>, totalAmount: int)

  /** One row of the form. */
  datatype AccountInput = AccountInput(id: string, name: string, amount: string)

  datatype Field = Name | Amount

  /** The select's entry that asks for a new account name. */
  const NewAccount: string := "_new"

  const FillInAllFields: string := "Please fill in all fields"

  /** The single blank row the form starts with and is reset to. */
  const BlankRows: seq<AccountInput> := [AccountInput("1", "", "")]

  function Ids(rows: seq<AccountInput>): (r: seq<string>)
    ensures |r| == |rows| && forall i :: 0 <= i < |rows| ==> r[i] == rows[i].id
  {
    seq(|rows|, i requires 0 <= i < |rows| => rows[i].id)
  }

  // ---------------------------------------------------------------------------
  // Row edits

  function SetField(row: AccountInput, field: Field, v: string): AccountInput {
    match field
    case Name => row.(name := v)
    case Amount => row.(amount := v)
  }

  /** `handleAccountChange`: `field` becomes `v` in the rows with that id; nothing else changes. */
  function ChangedRows(rows: seq<AccountInput>, id: string, field: Field, v: string): (r: seq<AccountInput>)
    ensures |r| == |rows|
    ensures forall i :: 0 <= i < |rows| && rows[i].id != id ==> r[i] == rows[i]
    ensures forall i :: 0 <= i < |rows| && rows[i].id == id ==>
              r[i].id == id && (if field == Name then r[i].name == v && r[i].amount == rows[i].amount
                                else r[i].amount == v && r[i].name == rows[i].name)
  {
    seq(|rows|, i requires 0 <= i < |rows| => if rows[i].id == id then SetField(rows[i], field, v) else rows[i])
  }

  /** Changing a field never changes the ids. */
  lemma ChangedRowsKeepIds(rows: seq<AccountInput>, id: string, field: Field, v: string)
    ensures Ids(ChangedRows(rows, id, field, v)) == Ids(rows)
  {
    var r := ChangedRows(rows, id, field, v);
    assert forall i :: 0 <= i < |rows| ==> r[i].id == rows[i].id;
  }

  function IdIsNot(id: string): AccountInput -> bool {
    (row: AccountInput) => row.id != id
  }

  /** `accounts.filter(acc => acc.id !== id)`. */
  function RemovedRows(rows: seq<AccountInput>, id: string): (r: seq<AccountInput>)
    ensures IsSubseq(r, rows)
    ensures forall x :: x in r <==> x in rows && x.id != id
  {
    Filter(rows, IdIsNot(id))
  }

  /** With distinct ids at most one row goes, and none when the id is unknown. */
  lemma {:induction false} RemovedRowsLength(rows: seq<AccountInput>, id: string)
    requires NoDuplicates(Ids(rows))
    ensures |RemovedRows(rows, id)| == if id in Ids(rows) then |rows| - 1 else |rows|
  {
    if rows != [] {
      var rest := rows[1..];
      assert Ids(rest) == Ids(rows)[1..];
      RemovedRowsLength(rest, id);
      if rows[0].id == id {
        assert id !in Ids(rest);
      } else {
        assert id in Ids(rows) <==> id in Ids(rest) by {
          assert Ids(rows) == [rows[0].id] + Ids(rest);
        }
      }
    }
  }

  lemma IdsCons(x: AccountInput, rows: seq<AccountInput>)
    ensures Ids([x] + rows) == [x.id] + Ids(rows)
  {
  }

  /** Removing keeps the survivors' ids distinct. */
  lemma {:induction false} RemovedRowsDistinct(rows: seq<AccountInput>, id: string)
    requires NoDuplicates(Ids(rows))
    ensures NoDuplicates(Ids(RemovedRows(rows, id)))
  {
    if rows != [] {
      var rest := rows[1..];
      assert rows == [rows[0]] + rest;
      IdsCons(rows[0], rest);
      NoDuplicatesCons(rows[0].id, Ids(rest));
      RemovedRowsDistinct(rest, id);
      var kept := RemovedRows(rest, id);
      if rows[0].id != id {
        assert RemovedRows(rows, id) == [rows[0]] + kept;
        IdsCons(rows[0], kept);
        NoDuplicatesCons(rows[0].id, Ids(kept));
        forall k | 0 <= k < |kept| ensures Ids(kept)[k] != rows[0].id {
          assert kept[k] in rest;
          var m :| 0 <= m < |rest| && rest[m] == kept[k];
          assert Ids(rest)[m] == kept[k].id;
        }
      } else {
        assert RemovedRows(rows, id) == kept;
      }
    }
  }

  /** Two rows sharing an id are removed together, emptying a list the guard let through. */
  lemma SharedIdEmptiesList()
    ensures var rows := [AccountInput("7", "Cash", "1"), AccountInput("7", "Bank", "2")];
            |rows| > 1 && RemovedRows(rows, "7") == []
  {
    var rows := [AccountInput("7", "Cash", "1"), AccountInput("7", "Bank", "2")];
    assert rows[1..][1..] == [];
  }

  // ---------------------------------------------------------------------------
  // Submission

  datatype Verb = Post | Put(key: string)

  /** One entry of the request body; an unset new-account name is `undefined`, here `None`. */
  datatype PayloadEntry = PayloadEntry(accountName: Option<string>, amount: string)

  datatype SaveRequest = SaveRequest(verb: Verb, date: string, accounts: seq<PayloadEntry>)

  /** The check the form applies: a date, and a name and an amount on every row. */
  predicate FormComplete(date: string, rows: seq<AccountInput>) {
    date != "" && forall i :: 0 <= i < |rows| ==> rows[i].name != "" && rows[i].amount != ""
  }

  function EntryName(row: AccountInput, names: map<string, string>): Option<string> {
    if row.name == NewAccount then (if row.id in names then Some(names[row.id]) else None)
    else Some(row.name)
  }

  /** The body's `accounts`: one entry per row, in order, naming new accounts by the typed name. */
  function Payload(rows: seq<AccountInput>, names: map<string, string>): (r: seq<PayloadEntry>)
    ensures |r| == |rows|
    ensures forall i :: 0 <= i < |rows| ==> r[i].amount == rows[i].amount
    ensures forall i :: 0 <= i < |rows| && rows[i].name != NewAccount ==> r[i].accountName == Some(rows[i].name)
    ensures forall i :: 0 <= i < |rows| && rows[i].name == NewAccount ==>
              r[i].accountName == (if rows[i].id in names then Some(names[rows[i].id]) else None)
  {
    seq(|rows|, i requires 0 <= i < |rows| => PayloadEntry(EntryName(rows[i], names), rows[i].amount))
  }

  /**
   * `handleSubmit` up to the request: nothing is sent for an incomplete form;
   * otherwise a PUT keyed by the snapshot being edited, or a POST.
   */
  function SubmitRequest(date: string, rows: seq<AccountInput>, names: map<string, string>, editingId: Option<string>)
    : (r: Option<SaveRequest>)
    ensures r.None? <==> !FormComplete(date, rows)
    ensures r.Some? ==> r.value.date == date && r.value.accounts == Payload(rows, names)
    ensures r.Some? ==> (r.value.verb.Put? <==> editingId.Some? && editingId.value != "")
    ensures r.Some? && r.value.verb.Put? ==> r.value.verb.key == editingId.value
  {
    if !FormComplete(date, rows) then None
    else
      var verb := if editingId.Some? && editingId.value != "" then Put(editingId.value) else Post;
      Some(SaveRequest(verb, date, Payload(rows, names)))
  }

  /** A `'_new'` row whose name was never typed passes the check and is sent without a name. */
  lemma UnnamedNewAccountAccepted()
    ensures var rows := [AccountInput("1", NewAccount, "100")];
            && FormComplete("2024-01-31", rows)
            && SubmitRequest("2024-01-31", rows, map[], None).value.accounts[0].accountName == None
  {
  }

  /** The check also asks a typed, non-empty name of every `'_new'` row. */
  predicate FormCompleteWithNames(date: string, rows: seq<AccountInput>, names: map<string, string>) {
    && FormComplete(date, rows)
    && forall i :: 0 <= i < |rows| && rows[i].name == NewAccount ==> rows[i].id in names && names[rows[i].id] != ""
  }

  /** Under the stricter check every entry sent carries a non-empty account name. */
  lemma CompleteFormNamesEveryEntry(date: string, rows: seq<AccountInput>, names: map<string, string>, editingId: Option<string>)
    requires FormCompleteWithNames(date, rows, names)
    ensures SubmitRequest(date, rows, names, editingId).Some?
    ensures forall i :: 0 <= i < |rows| ==>
              var e := SubmitRequest(date, rows, names, editingId).value.accounts[i];
              e.accountName.Some? && e.accountName.value != ""
  {
    var p := Payload(rows, names);
    forall i | 0 <= i < |rows| ensures p[i].accountName.Some? && p[i].accountName.value != "" {
    }
  }

  // ---------------------------------------------------------------------------
  // Editing a stored snapshot

  /** The rows an edit loads: ids "0".."n-1", the snapshot's names and amounts as text. */
  function EditRows(s: Snapshot): (r: seq<AccountInput>)
    ensures |r| == |s.accounts|
    ensures forall i :: 0 <= i < |r| ==>
              r[i].id == NatToString(i) && r[i].name == s.accounts[i].name && r[i].amount == IntToString(s.accounts[i].amount)
  {
    seq(|s.accounts|, i requires 0 <= i < |s.accounts| =>
      AccountInput(NatToString(i), s.accounts[i].name, IntToString(s.accounts[i].amount)))
  }

  /** The loaded rows have distinct ids. */
  lemma EditRowsDistinct(s: Snapshot)
    ensures NoDuplicates(Ids(EditRows(s)))
  {
    var r := EditRows(s);
    forall i, j | 0 <= i < j < |r| ensures Ids(r)[i] != Ids(r)[j] {
      if NatToString(i) == NatToString(j) {
        NatToStringInjective(i, j);
      }
    }
  }

  // ---------------------------------------------------------------------------
  // The form's state

  class NetWorthForm {
    var showForm: bool
    var error: string
    var date: string
    var editingId: Option<string>
    var accounts: seq<AccountInput>
    var netWorthData: seq<Snapshot>
    var newAccountNames: map<string, string>

    /** The form never holds two rows with one id. */
    ghost predicate DistinctIds()
      reads this
    {
      NoDuplicates(Ids(accounts))
    }

    constructor ()
      ensures !showForm && error == "" && date == "" && editingId == None
      ensures accounts == BlankRows && netWorthData == [] && newAccountNames == map[]
      ensures DistinctIds()
    {
      showForm := false;
      error := "";
      date := "";
      editingId := None;
      accounts := BlankRows;
      netWorthData := [];
      newAccountNames := map[];
    }

    /** The header button shows or hides the form. */
    method ToggleForm()
      modifies this
      ensures showForm == !old(showForm)
      ensures error == old(error) && date == old(date) && editingId == old(editingId)
      ensures accounts == old(accounts) && netWorthData == old(netWorthData) && newAccountNames == old(newAccountNames)
    {
      showForm := !showForm;
    }

    method SetDate(d: string)
      modifies this
      ensures date == d
      ensures showForm == old(showForm) && error == old(error) && editingId == old(editingId)
      ensures accounts == old(accounts) && netWorthData == old(netWorthData) && newAccountNames == old(newAccountNames)
    {
      date := d;
    }

    /** The snapshots fetched when the view opens. */
    method Loaded(data: seq<Snapshot>)
      modifies this
      ensures netWorthData == data
      ensures showForm == old(showForm) && error == old(error) && date == old(date) && editingId == old(editingId)
      ensures accounts == old(accounts) && newAccountNames == old(newAccountNames)
    {
      netWorthData := data;
    }

    method ChangeAccount(id: string, field: Field, v: string)
      modifies this
      ensures accounts == ChangedRows(old(accounts), id, field, v)
      ensures old(DistinctIds()) ==> DistinctIds()
      ensures showForm == old(showForm) && error == old(error) && date == old(date) && editingId == old(editingId)
      ensures netWorthData == old(netWorthData) && newAccountNames == old(newAccountNames)
    {
      ChangedRowsKeepIds(accounts, id, field, v);
      accounts := ChangedRows(accounts, id, field, v);
    }

    /** `handleNewAccountInput`: records the name typed for a `'_new'` row. */
    method NewAccountInput(id: string, v: string)
      modifies this
      ensures newAccountNames == old(newAccountNames)[id := v]
      ensures showForm == old(showForm) && error == old(error) && date == old(date) && editingId == old(editingId)
      ensures accounts == old(accounts) && netWorthData == old(netWorthData)
    {
      newAccountNames := newAccountNames[id := v];
    }

    /** `handleAddAccount`: one blank row at the end, with the clock's reading as its id. */
    method AddAccount(freshId: string)
      modifies this
      ensures accounts == old(accounts) + [AccountInput(freshId, "", "")]
      ensures old(DistinctIds()) && freshId !in Ids(old(accounts)) ==> DistinctIds()
      ensures showForm == old(showForm) && error == old(error) && date == old(date) && editingId == old(editingId)
      ensures netWorthData == old(netWorthData) && newAccountNames == old(newAccountNames)
    {
      var before := accounts;
      accounts := accounts + [AccountInput(freshId, "", "")];
      assert Ids(accounts) == Ids(before) + [freshId];
    }

    /** `handleRemoveAccount`: ignored while one row is left, otherwise drops the rows with that id. */
    method RemoveAccount(id: string)
      modifies this
      ensures accounts == if |old(accounts)| > 1 then RemovedRows(old(accounts), id) else old(accounts)
      ensures old(DistinctIds()) ==> DistinctIds()
      ensures old(DistinctIds()) && |old(accounts)| >= 1 ==> |accounts| >= 1
      ensures showForm == old(showForm) && error == old(error) && date == old(date) && editingId == old(editingId)
      ensures netWorthData == old(netWorthData) && newAccountNames == old(newAccountNames)
    {
      if |accounts| > 1 {
        if DistinctIds() {
          RemovedRowsLength(accounts, id);
          RemovedRowsDistinct(accounts, id);
        }
        accounts := RemovedRows(accounts, id);
      }
    }

    /** `handleSubmit` up to the request: an incomplete form only sets the error. */
    method Submit() returns (request: Option<SaveRequest>)
      modifies this
      ensures request == SubmitRequest(date, accounts, newAccountNames, editingId)
      ensures error == if request.None? then FillInAllFields else old(error)
      ensures showForm == old(showForm) && date == old(date) && editingId == old(editingId)
      ensures accounts == old(accounts) && netWorthData == old(netWorthData) && newAccountNames == old(newAccountNames)
    {
      request := SubmitRequest(date, accounts, newAccountNames, editingId);
      if request.None? {
        error := FillInAllFields;
      }
    }

    /** The save and the refresh succeeded: the new list is shown and the form is reset. */
    method SaveSucceeded(refreshed: seq<Snapshot>)
      modifies this
      ensures netWorthData == refreshed
      ensures editingId == None && date == "" && accounts == BlankRows && !showForm && newAccountNames == map[]
      ensures error == old(error)
      ensures DistinctIds()
    {
      netWorthData := refreshed;
      editingId := None;
      date := "";
      accounts := BlankRows;
      showForm := false;
      newAccountNames := map[];
    }

    method SaveFailed(f: Failure)
      modifies this
      ensures error == ErrorText(f, "Failed to save", "Error saving")
      ensures showForm == old(showForm) && date == old(date) && editingId == old(editingId)
      ensures accounts == old(accounts) && netWorthData == old(netWorthData) && newAccountNames == old(newAccountNames)
    {
      error := ErrorText(f, "Failed to save", "Error saving");
    }

    /** `handleDelete` after the delete and the refresh succeeded. */
    method DeleteSucceeded(refreshed: seq<Snapshot>)
      modifies this
      ensures netWorthData == refreshed
      ensures showForm == old(showForm) && error == old(error) && date == old(date) && editingId == old(editingId)
      ensures accounts == old(accounts) && newAccountNames == old(newAccountNames)
    {
      netWorthData := refreshed;
    }

    method DeleteFailed(f: Failure)
      modifies this
      ensures error == ErrorText(f, "Failed to delete", "Error deleting snapshot")
      ensures showForm == old(showForm) && date == old(date) && editingId == old(editingId)
      ensures accounts == old(accounts) && netWorthData == old(netWorthData) && newAccountNames == old(newAccountNames)
    {
      error := ErrorText(f, "Failed to delete", "Error deleting snapshot");
    }

    /** The edit button: loads the snapshot into the form and keys the next save by its date. */
    method Edit(s: Snapshot)
      modifies this
      ensures editingId == Some(s.date) && date == s.date && accounts == EditRows(s) && showForm
      ensures DistinctIds()
      ensures error == old(error) && netWorthData == old(netWorthData) && newAccountNames == old(newAccountNames)
    {
      editingId := Some(s.date);
      date := s.date;
      accounts := EditRows(s);
      EditRowsDistinct(s);
      showForm := true;
    }

    /** The Cancel button as written: hides and blanks the form, but keeps `editingId`. */
    method Cancel()
      modifies this
      ensures !showForm && date == "" && accounts == BlankRows
      ensures DistinctIds()
      ensures editingId == old(editingId) && error == old(error)
      ensures netWorthData == old(netWorthData) && newAccountNames == old(newAccountNames)
    {
      showForm := false;
      date := "";
      accounts := BlankRows;
    }

    /** Cancel that also ends the edit, as the transaction view's cancel does. */
    method CancelEdit()
      modifies this
      ensures !showForm && date == "" && accounts == BlankRows && editingId == None
      ensures DistinctIds()
      ensures error == old(error) && netWorthData == old(netWorthData) && newAccountNames == old(newAccountNames)
    {
      showForm := false;
      date := "";
      accounts := BlankRows;
      editingId := None;
    }
  }

  /**
   * Edit a snapshot, press Cancel, then open the form again and enter a new
   * snapshot: with Cancel as written the save is a PUT to the old snapshot.
   */
  method CancelledEditStillPuts(s: Snapshot, newDate: string) returns (request: Option<SaveRequest>)
    requires s.date != "" && newDate != ""
    ensures request == Some(SaveRequest(Put(s.date), newDate, [PayloadEntry(Some("Cash"), "5")]))
  {
    var form := new NetWorthForm();
    form.Edit(s);
    form.Cancel();
    NewSnapshot(form, newDate);
    assert Payload(form.accounts, form.newAccountNames) == [PayloadEntry(Some("Cash"), "5")];
    request := form.Submit();
  }

  /** The same steps with `CancelEdit` send a POST that creates a new snapshot. */
  method CancelledEditPosts(s: Snapshot, newDate: string) returns (request: Option<SaveRequest>)
    requires s.date != "" && newDate != ""
    ensures request == Some(SaveRequest(Post, newDate, [PayloadEntry(Some("Cash"), "5")]))
  {
    var form := new NetWorthForm();
    form.Edit(s);
    form.CancelEdit();
    NewSnapshot(form, newDate);
    assert Payload(form.accounts, form.newAccountNames) == [PayloadEntry(Some("Cash"), "5")];
    request := form.Submit();
  }

  /** Opens the blank form and fills its one row with a 5 in Cash on `newDate`. */
  method NewSnapshot(form: NetWorthForm, newDate: string)
    requires form.accounts == BlankRows
    modifies form
    ensures form.date == newDate && form.accounts == [AccountInput("1", "Cash", "5")]
    ensures form.editingId == old(form.editingId) && form.newAccountNames == old(form.newAccountNames)
  {
    form.ToggleForm();
    form.SetDate(newDate);
    form.ChangeAccount("1", Name, "Cash");
    form.ChangeAccount("1", Amount, "5");
  }

  // ---------------------------------------------------------------------------
  // Derived figures

  /** `currentTotal`: the rows' parsed amounts, an unparsable amount counting as 0. */
  function CurrentTotal(rows: seq<AccountInput>, parse: string -> Option<int>): int {
    if rows == [] then 0
    else CurrentTotal(rows[..|rows| - 1], parse)
         + (var p := parse(rows[|rows| - 1].amount); if p.Some? then p.value else 0)
  }

  /** A blank row adds nothing to the running total when the empty text does not parse. */
  lemma AddedRowKeepsTotal(rows: seq<AccountInput>, freshId: string, parse: string -> Option<int>)
    requires parse("").None?
    ensures CurrentTotal(rows + [AccountInput(freshId, "", "")], parse) == CurrentTotal(rows, parse)
  {
    assert (rows + [AccountInput(freshId, "", "")])[..|rows|] == rows;
  }

  /** `currentNetWorth`: the last snapshot's total, or 0 without snapshots. */
  function CurrentNetWorth(data: seq<Snapshot>): int {
    if data == [] then 0 else data[|data| - 1].totalAmount
  }

  /** `firstNetWorth`: the first snapshot's total, or 0 without snapshots. */
  function FirstNetWorth(data: seq<Snapshot>): int {
    if data == [] then 0 else data[0].totalAmount
  }

  function TotalGrowth(data: seq<Snapshot>): int {
    CurrentNetWorth(data) - FirstNetWorth(data)
  }

  /** `growthPercent`: `'0'` unless the first total is positive. */
  function GrowthPercent(data: seq<Snapshot>): (p: PercentText)
    ensures p.ZeroText? <==> FirstNetWorth(data) <= 0
    ensures p.Ratio? ==> p.percent * (FirstNetWorth(data) as real) == (TotalGrowth(data) as real) * 100.0
  {
    PercentOf(TotalGrowth(data), FirstNetWorth(data))
  }

  /** A newly recorded snapshot adds its change from the previous last total to the growth. */
  lemma GrowthAfterSnapshot(data: seq<Snapshot>, s: Snapshot)
    requires data != []
    ensures TotalGrowth(data + [s]) == TotalGrowth(data) + (s.totalAmount - CurrentNetWorth(data))
    ensures FirstNetWorth(data + [s]) == FirstNetWorth(data)
  {
    assert (data + [s])[0] == data[0];
  }

  /** With a single snapshot there is no growth, so the percent shows `'0'` or a zero ratio. */
  lemma SingleSnapshotGrowth(data: seq<Snapshot>)
    requires |data| == 1
    ensures TotalGrowth(data) == 0
    ensures GrowthPercent(data) == if data[0].totalAmount > 0 then Ratio(0.0) else ZeroText
  {
  }

  /**
   * Name j of snapshot i sits in `r` right after the accounts of the snapshots
   * before i: the position `flatMap` gives it.
   */
  ghost predicate NameAt(r: seq<string>, data: seq<Snapshot>, i: int, j: int)
    requires 0 <= i < |data| && 0 <= j < |data[i].accounts|
  {
    AccountCount(data[..i]) + j < |r| && r[AccountCount(data[..i]) + j] == data[i].accounts[j].name
  }

  /** How many account entries the snapshots hold together. */
  function AccountCount(data: seq<Snapshot>): nat {
    if data == [] then 0 else AccountCount(data[..|data| - 1]) + |data[|data| - 1].accounts|
  }

  /**
   * Every account name of every snapshot, snapshot by snapshot: the `flatMap`.
   * The names of snapshot i start after the accounts of the snapshots before it.
   */
  function AccountNamesOf(data: seq<Snapshot>): (r: seq<string>)
    ensures forall n :: n in r <==> exists i, j :: 0 <= i < |data| && 0 <= j < |data[i].accounts| && data[i].accounts[j].name == n
    ensures |r| == AccountCount(data)
    ensures forall i, j :: 0 <= i < |data| && 0 <= j < |data[i].accounts| ==> NameAt(r, data, i, j)
  {
    if data == [] then []
    else
      var front, last := data[..|data| - 1], data[|data| - 1];
      var init := AccountNamesOf(front);
      var names := seq(|last.accounts|, j requires 0 <= j < |last.accounts| => last.accounts[j].name);
      assert data == front + [last];
      FlatMembersStep(data, front, last, init, names);
      FlatIndexStep(data, front, last, init, names);
      init + names
  }

  /** Appending a snapshot's names adds exactly that snapshot's names to the members. */
  lemma {:induction false} FlatMembersStep(data: seq<Snapshot>, front: seq<Snapshot>, last: Snapshot, init: seq<string>, names: seq<string>)
    requires data == front + [last]
    requires forall n :: n in init <==> exists i, j :: 0 <= i < |front| && 0 <= j < |front[i].accounts| && front[i].accounts[j].name == n
    requires |names| == |last.accounts|
    requires forall j :: 0 <= j < |names| ==> names[j] == last.accounts[j].name
    ensures forall n :: n in init + names <==> exists i, j :: 0 <= i < |data| && 0 <= j < |data[i].accounts| && data[i].accounts[j].name == n
  {
    assert forall i :: 0 <= i < |front| ==> data[i] == front[i];
    forall n ensures n in init + names <==> exists i, j :: 0 <= i < |data| && 0 <= j < |data[i].accounts| && data[i].accounts[j].name == n {
      if n in names {
        var j :| 0 <= j < |names| && names[j] == n;
        assert data[|front|].accounts[j].name == n;
      }
      if exists i, j :: 0 <= i < |data| && 0 <= j < |data[i].accounts| && data[i].accounts[j].name == n {
        var i, j :| 0 <= i < |data| && 0 <= j < |data[i].accounts| && data[i].accounts[j].name == n;
        if i == |front| {
          assert names[j] == n;
        } else {
          assert front[i].accounts[j].name == n;
        }
      }
    }
  }

  /** Appending a snapshot's names after the earlier ones keeps every name at its `flatMap` position. */
  lemma {:induction false} FlatIndexStep(data: seq<Snapshot>, front: seq<Snapshot>, last: Snapshot, init: seq<string>, names: seq<string>)
    requires data == front + [last]
    requires |init| == AccountCount(front)
    requires forall i, j :: 0 <= i < |front| && 0 <= j < |front[i].accounts| ==> NameAt(init, front, i, j)
    requires |names| == |last.accounts|
    requires forall j :: 0 <= j < |names| ==> names[j] == last.accounts[j].name
    ensures |init + names| == AccountCount(data)
    ensures forall i, j :: 0 <= i < |data| && 0 <= j < |data[i].accounts| ==> NameAt(init + names, data, i, j)
  {
    assert data[..|data| - 1] == front;
    forall i, j | 0 <= i < |data| && 0 <= j < |data[i].accounts|
      ensures NameAt(init + names, data, i, j)
    {
      if i < |front| {
        assert data[..i] == front[..i];
        assert data[i] == front[i];
        assert front[i].accounts[j] == data[i].accounts[j];
        assert NameAt(init, front, i, j);
        var k := AccountCount(front[..i]) + j;
        assert (init + names)[k] == init[k];
      } else {
        assert data[..i] == front;
        assert data[i] == last;
        assert names[j] == last.accounts[j].name;
        assert (init + names)[|init| + j] == names[j];
      }
    }
  }

  /** `allAccountNames`: each account name once. */
  function AllAccountNames(data: seq<Snapshot>): (r: seq<string>)
    ensures NoDuplicates(r)
    ensures forall n :: n in r <==> exists i, j :: 0 <= i < |data| && 0 <= j < |data[i].accounts| && data[i].accounts[j].name == n
  {
    Distinct(AccountNamesOf(data))
  }

  /** The names keep the order in which they first occur across the snapshots. */
  lemma AllAccountNamesOrder(data: seq<Snapshot>, a: string, b: string)
    requires a in AllAccountNames(data) && b in AllAccountNames(data)
    ensures IndexOf(AllAccountNames(data), a) < IndexOf(AllAccountNames(data), b) <==>
            IndexOf(AccountNamesOf(data), a) < IndexOf(AccountNamesOf(data), b)
  {
    DistinctOrder(AccountNamesOf(data), a, b);
  }

  datatype ChartPoint = ChartPoint(date: string, total: int)

  /** `totalNetWorthChartData`: one point per snapshot, in order. */
  function TotalChartData(data: seq<Snapshot>): (r: seq<ChartPoint>)
    ensures |r| == |data|
    ensures forall i :: 0 <= i < |data| ==> r[i] == ChartPoint(data[i].date, data[i].totalAmount)
  {
    seq(|data|, i requires 0 <= i < |data| => ChartPoint(data[i].date, data[i].totalAmount))
  }

  /** An account name occurs in the list. */
  predicate HasAccount(accounts: seq<Account>, n: string) {
    exists j :: 0 <= j < |accounts| && accounts[j].name == n
  }

  /** The amount of the last account named `n`: a later one overwrites an earlier one. */
  function LastAmount(accounts: seq<Account>, n: string): int
    requires HasAccount(accounts, n)
  {
    var init := accounts[..|accounts| - 1];
    if accounts[|accounts| - 1].name == n then accounts[|accounts| - 1].amount
    else
      var j :| 0 <= j < |accounts| && accounts[j].name == n;
      assert init[j] == accounts[j];
      LastAmount(init, n)
  }

  /** `LastAmount` is the amount at the last position holding that name. */
  lemma {:induction false} LastAmountIsLast(accounts: seq<Account>, n: string)
    requires HasAccount(accounts, n)
    ensures exists j :: 0 <= j < |accounts| && accounts[j].name == n && accounts[j].amount == LastAmount(accounts, n)
                        && forall k :: j < k < |accounts| ==> accounts[k].name != n
  {
    var last := |accounts| - 1;
    if accounts[last].name != n {
      var init := accounts[..last];
      var j0 :| 0 <= j0 < |accounts| && accounts[j0].name == n;
      assert init[j0] == accounts[j0];
      LastAmountIsLast(init, n);
      var j :| 0 <= j < |init| && init[j].name == n && init[j].amount == LastAmount(init, n)
               && forall k :: j < k < |init| ==> init[k].name != n;
      assert accounts[j] == init[j];
      forall k | j < k < |accounts| ensures accounts[k].name != n {
        if k < last {
          assert accounts[k] == init[k];
        }
      }
    }
  }

  datatype BreakdownRow = BreakdownRow(date: string, amounts: map<string, int>)

  /** One `accountBreakdownData` entry: the date and each account's amount under its name. */
  method BreakdownRowOf(s: Snapshot) returns (row: BreakdownRow)
    ensures row.date == s.date
    ensures forall n :: n in row.amounts <==> HasAccount(s.accounts, n)
    ensures forall n :: n in row.amounts ==> row.amounts[n] == LastAmount(s.accounts, n)
  {
    var amounts: map<string, int> := map[];
    for j := 0 to |s.accounts|
      invariant forall n :: n in amounts <==> HasAccount(s.accounts[..j], n)
      invariant forall n :: n in amounts ==> amounts[n] == LastAmount(s.accounts[..j], n)
    {
      var acc := s.accounts[j];
      var prefix := s.accounts[..j + 1];
      assert prefix[..j] == s.accounts[..j];
      assert prefix[j] == acc;
      forall n ensures HasAccount(prefix, n) <==> HasAccount(s.accounts[..j], n) || n == acc.name {
        if HasAccount(s.accounts[..j], n) {
          var k :| 0 <= k < j && s.accounts[..j][k].name == n;
          assert prefix[k] == s.accounts[..j][k];
        }
      }
      amounts := amounts[acc.name := acc.amount];
    }
    assert s.accounts[..|s.accounts|] == s.accounts;
    row := BreakdownRow(s.date, amounts);
  }

  /** `accountBreakdownData`: one row per snapshot, in order. */
  method AccountBreakdown(data: seq<Snapshot>) returns (rows: seq<BreakdownRow>)
    ensures |rows| == |data|
    ensures forall i :: 0 <= i < |data| ==> rows[i].date == data[i].date
    ensures forall i, n :: 0 <= i < |data| ==> (n in rows[i].amounts <==> HasAccount(data[i].accounts, n))
    ensures forall i, n :: 0 <= i < |data| && n in rows[i].amounts ==> rows[i].amounts[n] == LastAmount(data[i].accounts, n)
  {
    rows := [];
    for i := 0 to |data|
      invariant |rows| == i
      invariant forall k :: 0 <= k < i ==> rows[k].date == data[k].date
      invariant forall k, n :: 0 <= k < i ==> (n in rows[k].amounts <==> HasAccount(data[k].accounts, n))
      invariant forall k, n :: 0 <= k < i && n in rows[k].amounts ==> rows[k].amounts[n] == LastAmount(data[k].accounts, n)
    {
      var row := BreakdownRowOf(data[i]);
      rows := rows + [row];
    }
  }
}
