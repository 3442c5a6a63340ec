/**
 * The account configuration of fund_app.py (cfg: {"users": [...], "current": ...})
 * and the "创建账户" action that adds a user and switches to it.
 */
module Accounts {

  /** No user name appears twice. */
  predicate Distinct(users: seq<string>) {
    forall i, j :: 0 <= i < j < |users| ==> users[i] != users[j]
  }

  /** Appending a name not yet present keeps the names distinct. */
  lemma {:induction false} AppendNewKeepsDistinct(users: seq<string>, name: string)
    requires Distinct(users) && name !in users
    ensures Distinct(users + [name])
  {
    var r := users + [name];
    forall i, j | 0 <= i < j < |r| ensures r[i] != r[j] {
      if j == |users| {
        assert r[i] == users[i];
      } else {
        assert r[i] == users[i] && r[j] == users[j];
      }
    }
  }

  class Config {
    var users: seq<string>
    var current: string

    /** The configuration every user has in common: the names are distinct and the current one is among them. */
    ghost predicate Valid()
      reads this
    {
      Distinct(users) && current in users
    }

    /** The configuration used when no file exists: {"users": ["Default"], "current": "Default"}. */
    constructor ()
      ensures users == ["Default"] && current == "Default"
      ensures Valid()
    {
      users := ["Default"];
      current := "Default";
    }

    /** The configuration as loaded from an existing file. */
    constructor Loaded(users: seq<string>, current: string)
      ensures this.users == users && this.current == current
    {
      this.users := users;
      this.current := current;
    }

    /** Create an account: a non-empty name not yet present is appended and becomes current; otherwise nothing changes. */
    method CreateAccount(name: string) returns (created: bool)
      modifies this
      ensures created <==> name != [] && name !in old(users)
      ensures users == if created then old(users) + [name] else old(users)
      ensures current == if created then name else old(current)
      ensures old(Distinct(users)) ==> Distinct(users)
      ensures old(Valid()) ==> Valid()
    {
      created := name != [] && name !in users;
      if created {
        if Distinct(users) {
          AppendNewKeepsDistinct(users, name);
        }
        users := users + [name];
        current := name;
      }
    }
  }
}
