/** POST /api/login: a case-insensitive search of a fixed list of four
    accounts for the given name and role. */
module Login {
  import opened Schema

  /** An entry of the fixed account list. */
  datatype Account = Account(userId: string, name: string, role: string)

  const VALID_USERS: seq<Account> := [
    Account("001", "Aaron Hewins", "Head Chef"),
    Account("002", "Lassana Bility", "Pantry Manager"),
    Account("003", "Camellia Pramanick", "NGO Manager"),
    Account("004", "Adila Choudhury", "Logistics Coordinator")
  ]

  function LowerChar(c: char): char {
    if 'A' <= c <= 'Z' then (c as int + 32) as char else c
  }

  /** `toLowerCase`, on the letters A to Z. */
  function Lower(s: string): (r: string)
    ensures |r| == |s|
    ensures forall i :: 0 <= i < |s| ==> r[i] == LowerChar(s[i])
  {
    if s == [] then [] else [LowerChar(s[0])] + Lower(s[1..])
  }

  lemma LowerIdempotent(s: string)
    ensures Lower(Lower(s)) == Lower(s)
  {
    assert forall i :: 0 <= i < |s| ==> LowerChar(LowerChar(s[i])) == LowerChar(s[i]);
  }

  /** The account `validUsers.find` accepts for this name and role. */
  predicate Matches(u: Account, username: string, role: string) {
    Lower(u.name) == Lower(username) && Lower(u.role) == Lower(role)
  }

  /** `u` is the first account of `users` that matches name and role. */
  ghost predicate FirstMatch(users: seq<Account>, u: Account, username: string, role: string) {
    exists i :: 0 <= i < |users| && users[i] == u &&
      Matches(u, username, role) && forall j :: 0 <= j < i ==> !Matches(users[j], username, role)
  }

  /** No account of `users` matches name and role. */
  ghost predicate NoMatch(users: seq<Account>, username: string, role: string) {
    forall i :: 0 <= i < |users| ==> !Matches(users[i], username, role)
  }

  /** `Array.prototype.find`: the first account that matches, if any. */
  function Find(users: seq<Account>, username: string, role: string): (r: Option<Account>)
    ensures r.Some? ==> FirstMatch(users, r.value, username, role)
    ensures r.None? ==> NoMatch(users, username, role)
  {
    if users == [] then None
    else if Matches(users[0], username, role) then Some(users[0])
    else
      var r := Find(users[1..], username, role);
      if r.Some? then
        SkipFirst(users, r.value, username, role);
        r
      else
        SkipNone(users, username, role);
        r
  }

  lemma SkipFirst(users: seq<Account>, u: Account, username: string, role: string)
    requires users != [] && !Matches(users[0], username, role)
    requires FirstMatch(users[1..], u, username, role)
    ensures FirstMatch(users, u, username, role)
  {
    var k :| 0 <= k < |users[1..]| && users[1..][k] == u && Matches(u, username, role) &&
             forall j :: 0 <= j < k ==> !Matches(users[1..][j], username, role);
    assert users[k + 1] == u;
    forall j | 0 <= j < k + 1 ensures !Matches(users[j], username, role) {
      if j > 0 {
        assert users[j] == users[1..][j - 1];
      }
    }
  }

  lemma SkipNone(users: seq<Account>, username: string, role: string)
    requires users != [] && !Matches(users[0], username, role)
    requires NoMatch(users[1..], username, role)
    ensures NoMatch(users, username, role)
  {
    forall i | 0 < i < |users| ensures !Matches(users[i], username, role) {
      assert users[i] == users[1..][i - 1];
    }
  }

  /** The login response: the stored account on a match, 401 otherwise. */
  function Authenticate(username: string, role: string): (r: Response<Account>)
    ensures r.Ok? ==> FirstMatch(VALID_USERS, r.body, username, role)
    ensures r.Err? ==> r.status == 401 && r.error == "Invalid credentials" && NoMatch(VALID_USERS, username, role)
  {
    var found := Find(VALID_USERS, username, role);
    if found.Some? then Ok(found.value) else Err(401, "Invalid credentials")
  }

  /** Login succeeds exactly when some fixed account matches name and role
      ignoring case, and then answers with that account's own id, name and
      role rather than the caller's spelling. */
  lemma AuthenticateSpec(username: string, role: string)
    ensures Authenticate(username, role).Ok? <==>
      exists i :: 0 <= i < |VALID_USERS| && Matches(VALID_USERS[i], username, role)
    ensures Authenticate(username, role).Ok? ==>
      Authenticate(username, role).body in VALID_USERS &&
      Lower(Authenticate(username, role).body.name) == Lower(username) &&
      Lower(Authenticate(username, role).body.role) == Lower(role)
    ensures Authenticate(username, role).Err? ==>
      Authenticate(username, role) == Err(401, "Invalid credentials")
  {
  }

  /** Changing the case of the name or the role never changes the answer. */
  lemma AuthenticateIgnoresCase(username: string, role: string)
    ensures Authenticate(username, role) == Authenticate(Lower(username), Lower(role))
  {
    LowerIdempotent(username);
    LowerIdempotent(role);
    assert forall u :: Matches(u, username, role) <==> Matches(u, Lower(username), Lower(role));
    FindRespectsMatches(VALID_USERS, username, role, Lower(username), Lower(role));
  }

  lemma {:induction false} FindRespectsMatches(users: seq<Account>, n1: string, r1: string, n2: string, r2: string)
    requires forall u :: Matches(u, n1, r1) <==> Matches(u, n2, r2)
    ensures Find(users, n1, r1) == Find(users, n2, r2)
  {
    if users != [] {
      FindRespectsMatches(users[1..], n1, r1, n2, r2);
    }
  }

  /** Each fixed account logs in with its own name and role: no earlier
      account shares its name, since the four names differ in length. */
  lemma EachAccountLogsIn(i: nat)
    requires i < |VALID_USERS|
    ensures Authenticate(VALID_USERS[i].name, VALID_USERS[i].role) == Ok(VALID_USERS[i])
  {
    var u := VALID_USERS[i];
    NamesDifferInLength();
    forall j | 0 <= j < i ensures !Matches(VALID_USERS[j], u.name, u.role) {
      MatchKeepsLength(VALID_USERS[j], u.name, u.role);
    }
    FindFirst(VALID_USERS, u.name, u.role, i);
  }

  /** An account's name with another account's role is refused: the role
      is checked against the named account, not against the list as a whole. */
  lemma RoleMustBelongToName(i: nat, k: nat)
    requires i < |VALID_USERS| && k < |VALID_USERS| && i != k
    ensures Authenticate(VALID_USERS[i].name, VALID_USERS[k].role) == Err(401, "Invalid credentials")
  {
    var name, role := VALID_USERS[i].name, VALID_USERS[k].role;
    NamesDifferInLength();
    forall j | 0 <= j < |VALID_USERS| ensures !Matches(VALID_USERS[j], name, role) {
      MatchKeepsLength(VALID_USERS[j], name, role);
    }
    AuthenticateSpec(name, role);
  }

  lemma NamesDifferInLength()
    ensures forall j, k :: 0 <= j < k < |VALID_USERS| ==> |VALID_USERS[j].name| != |VALID_USERS[k].name|
    ensures forall j, k :: 0 <= j < k < |VALID_USERS| ==> |VALID_USERS[j].role| != |VALID_USERS[k].role|
  {
  }

  lemma MatchKeepsLength(u: Account, username: string, role: string)
    ensures Matches(u, username, role) ==> |u.name| == |username| && |u.role| == |role|
  {
    if Matches(u, username, role) {
      assert |Lower(u.name)| == |Lower(username)|;
      assert |Lower(u.role)| == |Lower(role)|;
    }
  }

  lemma {:induction false} FindFirst(users: seq<Account>, username: string, role: string, i: nat)
    requires i < |users| && Matches(users[i], username, role)
    requires forall j :: 0 <= j < i ==> !Matches(users[j], username, role)
    ensures Find(users, username, role) == Some(users[i])
  {
    if i > 0 {
      assert !Matches(users[0], username, role);
      FindFirst(users[1..], username, role, i - 1);
    }
  }
}
