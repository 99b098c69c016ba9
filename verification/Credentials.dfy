/** The credential store of utils/user_auth_utils.c: the table behind a lookup-before-insert guard. */
module Credentials {
  import opened Bytes
  import opened HashMap

  type Users = map<CString, CString>

  datatype Account = Account(name: CString, pass: CString)

  const HASHMAP_SIZE := 32

  /** Creating accounts one by one: a name keeps the password it was first created with. */
  function FirstWins(users: Users, accounts: seq<Account>): Users
    decreases |accounts|
  {
    if accounts == [] then users
    else
      var a := accounts[0];
      FirstWins(if a.name in users then users else users[a.name := a.pass], accounts[1..])
  }

  /** The account that decides a name: no earlier one has the name. */
  ghost predicate Decides(accounts: seq<Account>, name: CString, i: int) {
    0 <= i < |accounts| && accounts[i].name == name && forall j :: 0 <= j < i ==> accounts[j].name != name
  }

  lemma {:induction false} FirstWinsKeeps(users: Users, accounts: seq<Account>, name: CString)
    requires name in users
    ensures name in FirstWins(users, accounts) && FirstWins(users, accounts)[name] == users[name]
    decreases |accounts|
  {
    if accounts != [] {
      var a := accounts[0];
      FirstWinsKeeps(if a.name in users then users else users[a.name := a.pass], accounts[1..], name);
    }
  }

  /** From an empty store, a name is known iff some account has it, with the password of the first such one. */
  lemma {:induction false} FirstWinsDecided(users: Users, accounts: seq<Account>, name: CString)
    requires name !in users
    ensures name in FirstWins(users, accounts) <==> exists i :: Decides(accounts, name, i)
    ensures forall i :: Decides(accounts, name, i) ==> FirstWins(users, accounts)[name] == accounts[i].pass
    decreases |accounts|
  {
    if accounts != [] {
      var a := accounts[0];
      var users' := if a.name in users then users else users[a.name := a.pass];
      if a.name == name {
        FirstWinsKeeps(users', accounts[1..], name);
        assert Decides(accounts, name, 0);
      } else {
        var rest := accounts[1..];
        FirstWinsDecided(users', rest, name);
        forall i ensures Decides(accounts, name, i) <==> Decides(rest, name, i - 1) {
          DecidesTail(accounts, name, i);
        }
        assert forall k :: Decides(rest, name, k) ==> Decides(accounts, name, (k + 1));
      }
    }
  }

  lemma DecidesTail(accounts: seq<Account>, name: CString, i: int)
    requires accounts != [] && accounts[0].name != name
    ensures Decides(accounts, name, i) <==> Decides(accounts[1..], name, i - 1)
  {
    var rest := accounts[1..];
    if Decides(accounts, name, i) {
      assert forall j :: 0 <= j < i - 1 ==> rest[j] == accounts[j + 1];
    }
    if Decides(rest, name, i - 1) {
      assert forall j :: 0 < j < i ==> accounts[j] == rest[j - 1];
    }
  }

  class Store {
    var table: Table?
    /** The accounts created so far. */
    ghost var users: Users

    ghost predicate Valid()
      reads this, table, if table == null then {} else {table.entries}
    {
      if table == null then users == map[]
      else
        && table.Valid()
        && UniqueKeys(table.entries[..])
        && table.size == |users|
        && forall k :: table.Lookup(k) == if k in users then Some(Entry(true, k, users[k])) else None
    }

    constructor ()
      ensures Valid() && users == map[] && table == null
    {
      table := null;
      users := map[];
    }

    /** The table is created on first use. */
    method Open() returns (t: Table)
      requires Valid()
      modifies this
      ensures Valid() && users == old(users) && table == t
      ensures t == old(table) || (fresh(t) && fresh(t.entries))
      ensures old(table) != null ==> table == old(table)
    {
      if table == null {
        table := new Table(HASHMAP_SIZE);
      }
      t := table;
    }

    method CreateUser(name: CString, pass: CString)
      requires Valid() && |name| < 255 && |pass| < 255
      modifies this, table, if table == null then {} else {table.entries}
      ensures Valid() && users == FirstWins(old(users), [Account(name, pass)])
      ensures table == old(table) || fresh(table)
      ensures table != null && (old(table) == null || table.entries != old(table.entries) ==> fresh(table.entries))
    {
      var t := Open();
      assert [Account(name, pass)][1..] == [];
      var found := t.Get(name);
      if found == None {
        var _ := t.Insert(name, pass);
        users := users[name := pass];
      }
    }

    /** 0 for the right password of a known user, 1 otherwise. An unknown user is not added. */
    method AreValid(name: CString, pass: CString) returns (status: byte)
      requires Valid()
      modifies this
      ensures Valid() && users == old(users)
      ensures status == if name in users && users[name] == pass then 0 else 1
    {
      var t := Open();
      var found := t.Get(name);
      status := if found.Some? && found.value.value == pass then 0 else 1;
    }
  }

  lemma {:induction false} FirstWinsSnoc(users: Users, accounts: seq<Account>, a: Account)
    ensures FirstWins(users, accounts + [a]) == FirstWins(FirstWins(users, accounts), [a])
    decreases |accounts|
  {
    if accounts == [] {
      assert [] + [a] == [a];
    } else {
      var b := accounts[0];
      assert (accounts + [a])[1..] == accounts[1..] + [a];
      FirstWinsSnoc(if b.name in users then users else users[b.name := b.pass], accounts[1..], a);
    }
  }

  /** Server start-up: the accounts given on the command line are created in order. A login is then accepted
      exactly when the first account of that name has that password. */
  method CreateAll(accounts: seq<Account>) returns (store: Store)
    requires forall a :: a in accounts ==> |a.name| < 255 && |a.pass| < 255
    ensures fresh(store) && store.Valid() && store.users == FirstWins(map[], accounts)
    ensures forall name, i :: Decides(accounts, name, i) ==>
        name in store.users && store.users[name] == accounts[i].pass
    ensures forall name :: name in store.users ==> exists i :: Decides(accounts, name, i)
  {
    store := new Store();
    for n := 0 to |accounts|
      invariant fresh(store) && (store.table != null ==> fresh(store.table) && fresh(store.table.entries))
      invariant store.Valid() && store.users == FirstWins(map[], accounts[..n])
    {
      FirstWinsSnoc(map[], accounts[..n], accounts[n]);
      assert accounts[..n + 1] == accounts[..n] + [accounts[n]];
      store.CreateUser(accounts[n].name, accounts[n].pass);
    }
    assert accounts[..|accounts|] == accounts;
    forall name: CString
      ensures name in store.users <==> exists i :: Decides(accounts, name, i)
      ensures forall i :: Decides(accounts, name, i) ==> name in store.users && store.users[name] == accounts[i].pass
    {
      FirstWinsDecided(map[], accounts, name);
    }
  }
}
