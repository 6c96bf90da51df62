/**
 * The start-up reconciliation of the local account table with the panel:
 * every panel user missing locally is added with an import note, and
 * every local account the panel does not list is deleted.
 *
 * `listed` is the panel's answer to the user listing (`None` when the
 * request fails), `localReadOk` whether the local usernames could be read,
 * and `failing` the usernames whose insert raises a storage error.
 */
module Reconcile {
  import opened Wrappers
  import opened PyStr
  import opened Repository

  /** One user of the panel's listing, as far as the import reads it. */
  datatype PanelEntry = PanelEntry(username: Option<string>, status: Option<string>)

  const ImportNote := "Автоматически синхронизирован из Marzban"

  /** `user.get('status', 'active')`. */
  function EntryStatus(e: PanelEntry): string {
    e.status.GetOr("active")
  }

  /** `{user.get('username') for user in users if user.get('username')}`. */
  function ListedNames(listed: seq<PanelEntry>): set<string> {
    set e | e in listed && Truthy(e.username) :: e.username.value
  }

  /** The status of the first entry with that name: a later duplicate meets `INSERT OR IGNORE`. */
  function FirstStatus(listed: seq<PanelEntry>, name: string): string
    decreases |listed|
  {
    if |listed| == 0 then "active"
    else
      var p, e := listed[..|listed| - 1], listed[|listed| - 1];
      if name in ListedNames(p) then FirstStatus(p, name)
      else if e.username == Some(name) then EntryStatus(e)
      else "active"
  }

  /** The names the import inserts: listed, not yet local, and not refused by the store. */
  function Added(accounts: Accounts, listed: seq<PanelEntry>, failing: set<string>): set<string> {
    ListedNames(listed) - failing - accounts.Keys
  }

  /** The row `add_user` inserts for an imported name. */
  function ImportedRow(status: string): (a: Account)
    ensures a.telegramId.None? && !a.verified && a.notes == Some(ImportNote)
  {
    Account(None, None, None, false, status, Some(ImportNote))
  }

  /**
   * The table and the count after the insert loop has seen `listed`: an
   * entry with a truthy name that is neither in the table nor refused by
   * the store is inserted and counted; `INSERT OR IGNORE` skips the rest.
   */
  function Imported(accounts: Accounts, listed: seq<PanelEntry>, failing: set<string>): (Accounts, nat)
    decreases |listed|
  {
    if |listed| == 0 then (accounts, 0)
    else
      var prev := Imported(accounts, listed[..|listed| - 1], failing);
      var e := listed[|listed| - 1];
      if Truthy(e.username) && e.username.value !in prev.0 && e.username.value !in failing then
        (prev.0[e.username.value := ImportedRow(EntryStatus(e))], prev.1 + 1)
      else prev
  }

  /** The table after the insert phase. */
  function AfterAdding(accounts: Accounts, listed: seq<PanelEntry>, failing: set<string>): Accounts {
    Imported(accounts, listed, failing).0
  }

  /** Importing an entry: its name joins the listed names exactly when it is truthy. */
  lemma ListedNamesStep(p: seq<PanelEntry>, e: PanelEntry)
    ensures ListedNames(p + [e]) == ListedNames(p) + (if Truthy(e.username) then {e.username.value} else {})
  {
    forall x | x in p + [e]
      ensures x in p || x == e
    {
    }
  }

  /** A name that is new, accepted and not local grows the added names by one. */
  lemma AddedGrows<T>(listed: set<T>, failing: set<T>, local: set<T>, n: T)
    requires n !in failing && n !in local && n !in listed - failing - local
    ensures (listed + {n}) - failing - local == (listed - failing - local) + {n}
  {
  }

  /** A name that is refused, local or already listed leaves the added names as they are. */
  lemma AddedSame<T>(listed: set<T>, failing: set<T>, local: set<T>, n: T)
    requires n in failing || n in local || n in listed
    ensures (listed + {n}) - failing - local == listed - failing - local
  {
  }

  /** Adding one name to a union. */
  lemma UnionGrows<T>(a: set<T>, b: set<T>, n: T)
    ensures (a + b) + {n} == a + (b + {n})
  {
  }

  /** Whether the insert loop inserts the entry, given the table before it. */
  predicate Inserts(table: Accounts, e: PanelEntry, failing: set<string>) {
    Truthy(e.username) && e.username.value !in table && e.username.value !in failing
  }

  /** One entry of the insert loop, seen on the added names. */
  lemma AddedStep(accounts: Accounts, p: seq<PanelEntry>, e: PanelEntry, failing: set<string>)
    requires Imported(accounts, p, failing).0.Keys == accounts.Keys + Added(accounts, p, failing)
    ensures Inserts(Imported(accounts, p, failing).0, e, failing) ==>
      && e.username.value !in Added(accounts, p, failing)
      && Added(accounts, p + [e], failing) == Added(accounts, p, failing) + {e.username.value}
    ensures !Inserts(Imported(accounts, p, failing).0, e, failing) ==>
      Added(accounts, p + [e], failing) == Added(accounts, p, failing)
  {
    ListedNamesStep(p, e);
    if Truthy(e.username) {
      var n := e.username.value;
      if Inserts(Imported(accounts, p, failing).0, e, failing) {
        AddedGrows(ListedNames(p), failing, accounts.Keys, n);
      } else {
        AddedSame(ListedNames(p), failing, accounts.Keys, n);
      }
    }
  }

  /** The insert phase adds exactly the listed names the store accepts. */
  lemma {:induction false} ImportedKeys(accounts: Accounts, listed: seq<PanelEntry>, failing: set<string>)
    ensures Imported(accounts, listed, failing).0.Keys == accounts.Keys + Added(accounts, listed, failing)
    decreases |listed|
  {
    if |listed| > 0 {
      var p, e := listed[..|listed| - 1], listed[|listed| - 1];
      assert listed == p + [e];
      ImportedKeys(accounts, p, failing);
      AddedStep(accounts, p, e, failing);
      var prev := Imported(accounts, p, failing);
      if Inserts(prev.0, e, failing) {
        var n := e.username.value;
        assert prev.0[n := ImportedRow(EntryStatus(e))].Keys == prev.0.Keys + {n};
        UnionGrows(accounts.Keys, Added(accounts, p, failing), n);
      }
    }
  }

  /** The count the insert phase logs is the number of rows it added. */
  lemma {:induction false} ImportedCount(accounts: Accounts, listed: seq<PanelEntry>, failing: set<string>)
    ensures |Imported(accounts, listed, failing).0| == |accounts| + Imported(accounts, listed, failing).1
    decreases |listed|
  {
    if |listed| > 0 {
      ImportedCount(accounts, listed[..|listed| - 1], failing);
    }
  }

  /** The insert phase leaves every existing row as it was. */
  lemma {:induction false} ImportedKeepsRows(accounts: Accounts, listed: seq<PanelEntry>, failing: set<string>)
    ensures accounts.Keys <= Imported(accounts, listed, failing).0.Keys
    ensures forall u :: u in accounts ==> Imported(accounts, listed, failing).0[u] == accounts[u]
    decreases |listed|
  {
    if |listed| > 0 {
      ImportedKeepsRows(accounts, listed[..|listed| - 1], failing);
    }
  }

  /** Each imported row carries the status of the first listed entry with its name. */
  lemma {:induction false} ImportedStatus(accounts: Accounts, listed: seq<PanelEntry>, failing: set<string>)
    ensures forall u :: u in Imported(accounts, listed, failing).0 && u !in accounts ==>
      Imported(accounts, listed, failing).0[u] == ImportedRow(FirstStatus(listed, u))
    decreases |listed|
  {
    if |listed| > 0 {
      var p, e := listed[..|listed| - 1], listed[|listed| - 1];
      ImportedStatus(accounts, p, failing);
      ImportedKeys(accounts, p, failing);
      var prev := Imported(accounts, p, failing);
      forall u | u in prev.0 && u !in accounts
        ensures FirstStatus(listed, u) == FirstStatus(p, u)
      {
        assert u in ListedNames(p);
      }
      if Truthy(e.username) && e.username.value !in prev.0 && e.username.value !in failing {
        assert e.username.value !in ListedNames(p);
      }
    }
  }

  /**
   * The insert loop: each listed name that is not local is passed to
   * `add_user`, and the count is of the calls that returned true.
   */
  method AddMissing(db: Database, listed: seq<PanelEntry>, local: set<string>, failing: set<string>)
    returns (added: nat)
    requires db.Valid()
    requires local <= db.accounts.Keys
    modifies db
    ensures db.Valid()
    ensures (db.accounts, added) == Imported(old(db.accounts), listed, failing)
    ensures db.requests == old(db.requests) && db.history == old(db.history)
  {
    ghost var start := db.accounts;
    added := 0;
    var i := 0;
    while i < |listed|
      invariant 0 <= i <= |listed|
      invariant db.Valid()
      invariant start.Keys <= db.accounts.Keys
      invariant (db.accounts, added) == Imported(start, listed[..i], failing)
      invariant db.requests == old(db.requests) && db.history == old(db.history)
    {
      var e := listed[i];
      assert listed[..i + 1][..i] == listed[..i];
      if Truthy(e.username) && e.username.value !in local {
        var n := e.username.value;
        var ok := db.AddUser(n, EntryStatus(e), Some(ImportNote), n in failing);
        if ok {
          added := added + 1;
        }
      }
      i := i + 1;
    }
    assert listed[..i] == listed;
  }

  /** The names the delete phase removes. */
  function Absent(local: set<string>, listed: seq<PanelEntry>): set<string> {
    local - ListedNames(listed)
  }

  /**
   * The delete loop: each local name the panel does not list is passed to
   * `delete_user_by_username`, and the count is of the calls that returned
   * true.
   */
  method RemoveAbsent(db: Database, local: set<string>, listed: seq<PanelEntry>) returns (removed: nat)
    requires db.Valid()
    requires local <= db.accounts.Keys
    modifies db
    ensures db.Valid()
    ensures db.accounts == old(db.accounts) - Absent(local, listed)
    ensures removed == |Absent(local, listed)|
    ensures db.requests == old(db.requests) && db.history == old(db.history)
  {
    var names := ListedNames(listed);
    var rest := local;
    ghost var gone: set<string> := {};
    removed := 0;
    while rest != {}
      invariant rest <= local
      invariant gone == (local - rest) - names
      invariant db.Valid()
      invariant db.accounts == old(db.accounts) - gone
      invariant removed == |gone|
      invariant db.requests == old(db.requests) && db.history == old(db.history)
      decreases |rest|
    {
      var u :| u in rest;
      ghost var before := gone;
      var dropped;
      dropped, gone := DropIfUnlisted(db, u, names, old(db.accounts), gone);
      if dropped {
        removed := removed + 1;
      }
      Visited(local, rest, names, before, u);
      rest := rest - {u};
    }
    assert gone == Absent(local, listed);
  }

  /** Visiting one more name of `rest` adds it to `gone` exactly when it is not in `names`. */
  lemma Visited<T>(local: set<T>, rest: set<T>, names: set<T>, gone: set<T>, u: T)
    requires rest <= local && u in rest && gone == (local - rest) - names
    ensures (local - (rest - {u})) - names == if u in names then gone else gone + {u}
  {
  }

  /**
   * One local name of the delete loop: deleted when the panel does not
   * list it; `gone` is the set of names deleted so far.
   */
  method DropIfUnlisted(db: Database, u: string, names: set<string>, ghost m: Accounts, ghost gone: set<string>)
    returns (dropped: bool, ghost gone': set<string>)
    requires db.Valid()
    requires db.accounts == m - gone && u !in gone
    modifies db
    ensures db.Valid()
    ensures dropped <==> u !in names
    ensures gone' == if dropped then gone + {u} else gone
    ensures dropped ==> |gone'| == |gone| + 1
    ensures db.accounts == m - gone'
    ensures db.requests == old(db.requests) && db.history == old(db.history)
  {
    dropped := u !in names;
    gone' := gone;
    if dropped {
      var ok := db.DeleteUserByUsername(u);
      assert (m - gone) - {u} == m - (gone + {u});
      gone' := gone + {u};
    }
  }

  /** The counts logged at the end of the import. */
  datatype Outcome = Outcome(added: nat, removed: nat)

  /**
   * `_auto_import_users` as written: a failed listing is read as an empty
   * panel (`get_all_users() or []`), so every local account is deleted.
   */
  method AutoImportUsersAsWritten(db: Database, listed: Option<seq<PanelEntry>>, localReadOk: bool, failing: set<string>)
    returns (outcome: Outcome)
    requires db.Valid()
    modifies db
    ensures db.Valid()
    ensures var entries := listed.GetOr([]); var local := if localReadOk then old(db.accounts).Keys else {};
      && db.accounts == AfterAdding(old(db.accounts), entries, failing) - Absent(local, entries)
      && outcome == Outcome(Imported(old(db.accounts), entries, failing).1, |Absent(local, entries)|)
    ensures listed.None? && localReadOk ==> db.accounts == map[]
  {
    var entries := listed.GetOr([]);
    var local := if localReadOk then db.accounts.Keys else {};
    ImportedKeepsRows(db.accounts, entries, failing);
    if listed.None? {
      assert ListedNames(entries) == {};
      assert Imported(db.accounts, entries, failing).0 == db.accounts;
    }
    var added := AddMissing(db, entries, local, failing);
    var removed := RemoveAbsent(db, local, entries);
    outcome := Outcome(added, removed);
  }

  /**
   * `_auto_import_users` as intended: a failed listing says nothing about
   * which users exist, so nothing is deleted.
   */
  method AutoImportUsers(db: Database, listed: Option<seq<PanelEntry>>, localReadOk: bool, failing: set<string>)
    returns (outcome: Outcome)
    requires db.Valid()
    modifies db
    ensures db.Valid()
    ensures listed.None? ==> db.accounts == old(db.accounts) && outcome == Outcome(0, 0)
    ensures listed.Some? ==> var local := if localReadOk then old(db.accounts).Keys else {};
      && db.accounts == AfterAdding(old(db.accounts), listed.value, failing) - Absent(local, listed.value)
      && outcome == Outcome(Imported(old(db.accounts), listed.value, failing).1, |Absent(local, listed.value)|)
    ensures !localReadOk ==>
      && old(db.accounts).Keys <= db.accounts.Keys
      && forall u :: u in old(db.accounts) ==> db.accounts[u] == old(db.accounts)[u]
    ensures db.requests == old(db.requests) && db.history == old(db.history)
  {
    if listed.None? {
      return Outcome(0, 0);
    }
    var local := if localReadOk then db.accounts.Keys else {};
    ImportedKeepsRows(db.accounts, listed.value, failing);
    var added := AddMissing(db, listed.value, local, failing);
    var removed := RemoveAbsent(db, local, listed.value);
    outcome := Outcome(added, removed);
  }

  /**
   * When every insert succeeds and the local names could be read, the
   * local usernames afterwards are exactly the names in the listing. The
   * listing is the one page `get_all_users` asks for, so on a panel with
   * more users than the page holds it is not the whole panel.
   */
  lemma ImportMirrorsPanel(accounts: Accounts, listed: seq<PanelEntry>)
    ensures (AfterAdding(accounts, listed, {}) - Absent(accounts.Keys, listed)).Keys == ListedNames(listed)
  {
    ImportedKeys(accounts, listed, {});
    var m := AfterAdding(accounts, listed, {});
    var d := Absent(accounts.Keys, listed);
    assert (m - d).Keys == m.Keys - d;
    MirrorSets(accounts.Keys, ListedNames(listed));
  }

  /** Adding the listed names that are missing and removing the local ones that are not listed leaves the listed names. */
  lemma MirrorSets<T>(local: set<T>, listed: set<T>)
    ensures (local + (listed - {} - local)) - (local - listed) == listed
  {
  }
}
