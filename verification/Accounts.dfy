/**
 Signup (auth.service.ts) and the provider upserts (oauth.service.ts) over the user table.
 The database's unique indexes are not assumed: uniqueness is proved from the lookups alone.
 */
module Accounts {
  import opened Sequences
  import opened Wrappers

  datatype Provider = Google | Github | Apple

  /** A user row; a row's id is its index. Provider columns may be null. */
  datatype User = User(
    email: string, displayName: string, hasPassword: bool, emailVerified: bool,
    googleSub: Option<string>, githubSub: Option<string>, appleSub: Option<string>)

  datatype Profile = Profile(sub: string, email: string, name: string)

  datatype Result = Ok(id: nat) | EmailInUse

  function Sub(u: User, p: Provider): Option<string> {
    match p
    case Google => u.googleSub
    case Github => u.githubSub
    case Apple => u.appleSub
  }

  function WithSub(u: User, p: Provider, sub: string): User {
    match p
    case Google => u.(googleSub := Some(sub))
    case Github => u.(githubSub := Some(sub))
    case Apple => u.(appleSub := Some(sub))
  }

  /** `users.findOne({ where: { email } })`. */
  function FindByEmail(users: seq<User>, email: string): (r: Option<nat>)
    ensures r.None? ==> forall i :: 0 <= i < |users| ==> users[i].email != email
    ensures r.Some? ==> r.value < |users| && users[r.value].email == email
    ensures r.Some? ==> forall i :: 0 <= i < r.value ==> users[i].email != email
  {
    Find(users, (row: User) => row.email == email)
  }

  /** `users.findOne({ where: { oauth...Sub: sub } })`; a null column matches no subject. */
  function FindBySub(users: seq<User>, p: Provider, sub: string): (r: Option<nat>)
    ensures r.None? ==> forall i :: 0 <= i < |users| ==> Sub(users[i], p) != Some(sub)
    ensures r.Some? ==> r.value < |users| && Sub(users[r.value], p) == Some(sub)
    ensures r.Some? ==> forall i :: 0 <= i < r.value ==> Sub(users[i], p) != Some(sub)
  {
    Find(users, (row: User) => Sub(row, p) == Some(sub))
  }

  ghost predicate Distinct(users: seq<User>) {
    && (forall i, j :: 0 <= i < j < |users| ==> users[i].email != users[j].email)
    && (forall p, i, j :: 0 <= i < j < |users| && Sub(users[i], p).Some? ==> Sub(users[i], p) != Sub(users[j], p))
  }

  datatype Event =
    | Signup(email: string, displayName: string, verified: bool)
    | Upsert(provider: Provider, profile: Profile)

  function NewSignup(email: string, displayName: string, verified: bool): User {
    User(email, displayName, true, verified, None, None, None)
  }

  function NewOAuth(email: string, displayName: string, p: Provider, sub: string): User {
    WithSub(User(email, displayName, false, true, None, None, None), p, sub)
  }

  function Apply(users: seq<User>, e: Event): (seq<User>, Result) {
    match e
    case Signup(email, name, verified) =>
      if FindByEmail(users, email).Some? then (users, EmailInUse)
      else (users + [NewSignup(email, name, verified)], Ok(|users|))
    case Upsert(p, f) =>
      match FindBySub(users, p, f.sub)
      case Some(i) => (users, Ok(i))
      case None =>
        match FindByEmail(users, f.email)
        case Some(i) => (users[i := WithSub(users[i], p, f.sub).(emailVerified := true)], Ok(i))
        case None => (users + [NewOAuth(f.email, f.name, p, f.sub)], Ok(|users|))
  }

  function Exec(users: seq<User>, es: seq<Event>): seq<User>
    decreases |es|
  {
    if es == [] then users else Exec(Apply(users, es[0]).0, es[1..])
  }

  lemma ApplyKeepsDistinct(users: seq<User>, e: Event)
    requires Distinct(users)
    ensures Distinct(Apply(users, e).0)
  {
    var users' := Apply(users, e).0;
    forall p, i, j | 0 <= i < j < |users'| && Sub(users'[i], p).Some?
      ensures Sub(users'[i], p) != Sub(users'[j], p)
    {
      if j < |users| { assert Sub(users[i], p).Some? ==> Sub(users[i], p) != Sub(users[j], p); }
    }
  }

  /** A new user, column by column: by signup with a password and no subject, by a provider without one and verified. */
  lemma NewUserExactly(users: seq<User>, e: Event)
    requires |Apply(users, e).0| > |users|
    ensures var users', u := Apply(users, e).0, Apply(users, e).0[|users|];
            && users' == users + [u] && Apply(users, e).1 == Ok(|users|)
            && match e
               case Signup(email, name, verified) =>
                 && u.email == email && u.displayName == name && u.hasPassword && u.emailVerified == verified
                 && u.googleSub.None? && u.githubSub.None? && u.appleSub.None?
               case Upsert(p, f) =>
                 && u.email == f.email && u.displayName == f.name && !u.hasPassword && u.emailVerified
                 && u.googleSub == (if p.Google? then Some(f.sub) else None)
                 && u.githubSub == (if p.Github? then Some(f.sub) else None)
                 && u.appleSub == (if p.Apple? then Some(f.sub) else None)
  {
  }

  /** A user that an upsert links keeps every column but the verified flag and the subject of that provider. */
  lemma LinkedUserExactly(users: seq<User>, p: Provider, f: Profile, i: nat)
    requires i < |users| && Apply(users, Upsert(p, f)).0[i] != users[i]
    ensures var u, u' := users[i], Apply(users, Upsert(p, f)).0[i];
            && u'.email == u.email == f.email && u'.displayName == u.displayName && u'.hasPassword == u.hasPassword
            && u'.emailVerified
            && u'.googleSub == (if p.Google? then Some(f.sub) else u.googleSub)
            && u'.githubSub == (if p.Github? then Some(f.sub) else u.githubSub)
            && u'.appleSub == (if p.Apple? then Some(f.sub) else u.appleSub)
  {
  }

  /** Over every sequential run from an empty table, emails and the subjects of each provider stay unique. */
  lemma {:induction false} RunsKeepDistinct(users: seq<User>, es: seq<Event>)
    requires Distinct(users)
    ensures Distinct(Exec(users, es))
    decreases |es|
  {
    if es != [] {
      ApplyKeepsDistinct(users, es[0]);
      RunsKeepDistinct(Apply(users, es[0]).0, es[1..]);
    }
  }

  /** Some profile of the run has this email and this subject. */
  ghost predicate Brought(es: seq<Event>, p: Provider, email: string, sub: Option<string>) {
    exists k :: 0 <= k < |es| && Brings(es[k], p, email, sub)
  }

  predicate Brings(e: Event, p: Provider, email: string, sub: Option<string>) {
    e.Upsert? && e.provider == p && e.profile.email == email && sub == Some(e.profile.sub)
  }

  /**
   Users are never removed, keep their id and email, and change a subject only when a profile with their email
   brings a new one.
   */
  ghost predicate Preserves(users: seq<User>, users': seq<User>, p: Provider, es: seq<Event>) {
    && |users| <= |users'|
    && forall i :: 0 <= i < |users| ==>
         && users'[i].email == users[i].email
         && (Sub(users'[i], p) == Sub(users[i], p) || Brought(es, p, users[i].email, Sub(users'[i], p)))
  }

  lemma {:induction false} RunsPreserve(users: seq<User>, p: Provider, es: seq<Event>)
    ensures Preserves(users, Exec(users, es), p, es)
    decreases |es|
  {
    if es != [] {
      var mid, last := Apply(users, es[0]).0, Exec(users, es);
      RunsPreserve(mid, p, es[1..]);
      forall i | 0 <= i < |users|
        ensures last[i].email == users[i].email
        ensures Sub(last[i], p) == Sub(users[i], p) || Brought(es, p, users[i].email, Sub(last[i], p))
      {
        assert mid[i].email == users[i].email;
        if Sub(last[i], p) == Sub(mid[i], p) {
          if Sub(mid[i], p) != Sub(users[i], p) { assert Brings(es[0], p, users[i].email, Sub(last[i], p)); }
        } else {
          var k :| 0 <= k < |es[1..]| && Brings(es[1..][k], p, mid[i].email, Sub(last[i], p));
          assert es[k + 1] == es[1..][k];
        }
      }
    }
  }

  /** The event takes the subject of user `i` away: an unknown subject comes with that user's email. */
  predicate TakesOver(users: seq<User>, e: Event, p: Provider, i: nat)
    requires i < |users|
  {
    e.Upsert? && e.provider == p && e.profile.email == users[i].email && FindBySub(users, p, e.profile.sub).None?
  }

  /** Over one event a user keeps a subject if and only if the event does not take it over. */
  lemma KeepsSubExactly(users: seq<User>, e: Event, p: Provider, i: nat, sub: string)
    requires Distinct(users) && i < |users| && Sub(users[i], p) == Some(sub)
    ensures Sub(Apply(users, e).0[i], p) == Some(sub) <==> !TakesOver(users, e, p, i)
  {
  }

  /** Over one event a subject that nobody has finds an owner if and only if it comes in: the user it reaches. */
  lemma FreeSubExactly(users: seq<User>, e: Event, p: Provider, sub: string)
    requires Distinct(users) && FindBySub(users, p, sub).None?
    ensures FindBySub(Apply(users, e).0, p, sub)
            == if e.Upsert? && e.provider == p && e.profile.sub == sub then Some(Apply(users, e).1.id) else None
  {
    if e.Upsert? && e.provider == p && e.profile.sub == sub {
      FreeSubIsTaken(users, p, e.profile);
    } else {
      FreeSubStaysFree(users, e, p, sub);
    }
  }

  lemma FreeSubIsTaken(users: seq<User>, p: Provider, f: Profile)
    requires Distinct(users) && FindBySub(users, p, f.sub).None?
    ensures var (users', reached) := Apply(users, Upsert(p, f));
            reached.Ok? && FindBySub(users', p, f.sub) == Some(reached.id)
  {
    var e := Upsert(p, f);
    ApplyKeepsDistinct(users, e);
    assert Sub(Apply(users, e).0[Apply(users, e).1.id], p) == Some(f.sub);
  }

  lemma FreeSubStaysFree(users: seq<User>, e: Event, p: Provider, sub: string)
    requires FindBySub(users, p, sub).None? && !(e.Upsert? && e.provider == p && e.profile.sub == sub)
    ensures FindBySub(Apply(users, e).0, p, sub).None?
  {
    assert forall i :: 0 <= i < |users| ==> Sub(users[i], p) != Some(sub);
  }

  /**
   Who holds the subject after a run, told from the events alone: it is taken over, lies free, and is claimed again.
   */
  function HolderAfter(users: seq<User>, p: Provider, sub: string, holder: Option<nat>, es: seq<Event>): Option<nat>
    requires holder.Some? ==> holder.value < |users|
    decreases |es|
  {
    if es == [] then holder
    else
      var (users', reached) := Apply(users, es[0]);
      var next :=
        if holder.Some? then if TakesOver(users, es[0], p, holder.value) then None else holder
        else if es[0].Upsert? && es[0].provider == p && es[0].profile.sub == sub then Some(reached.id)
        else None;
      HolderAfter(users', p, sub, next, es[1..])
  }

  lemma {:induction false} HolderIsFound(users: seq<User>, p: Provider, sub: string, es: seq<Event>)
    requires Distinct(users)
    ensures FindBySub(Exec(users, es), p, sub) == HolderAfter(users, p, sub, FindBySub(users, p, sub), es)
    decreases |es|
  {
    if es != [] {
      var users', holder := Apply(users, es[0]).0, FindBySub(users, p, sub);
      ApplyKeepsDistinct(users, es[0]);
      HolderIsFound(users', p, sub, es[1..]);
      if holder.Some? {
        HolderAfterEvent(users, es[0], p, sub, holder.value);
      } else {
        FreeSubExactly(users, es[0], p, sub);
      }
    }
  }

  lemma HolderAfterEvent(users: seq<User>, e: Event, p: Provider, sub: string, i: nat)
    requires Distinct(users) && FindBySub(users, p, sub) == Some(i)
    ensures FindBySub(Apply(users, e).0, p, sub) == if TakesOver(users, e, p, i) then None else Some(i)
  {
    ApplyKeepsDistinct(users, e);
    KeepsSubExactly(users, e, p, i, sub);
  }

  /**
   Signing in again with the same profile after any run reaches the same user if and only if that user still holds the
   subject, or nobody does and the profile has that user's email.
   */
  lemma UpsertReturnsExactly(users: seq<User>, p: Provider, f: Profile, es: seq<Event>)
    requires Distinct(users)
    ensures var (users1, r) := Apply(users, Upsert(p, f));
            var holder := HolderAfter(users1, p, f.sub, Some(r.id), es);
            Apply(Exec(users1, es), Upsert(p, f)).1 == r
            <==> holder == Some(r.id) || (holder.None? && f.email == users1[r.id].email)
  {
    var (users1, r) := Apply(users, Upsert(p, f));
    var users2 := Exec(users1, es);
    ApplyKeepsDistinct(users, Upsert(p, f));
    RunsKeepDistinct(users1, es);
    RunsPreserve(users1, p, es);
    assert FindBySub(users1, p, f.sub) == Some(r.id) by { assert Sub(users1[r.id], p) == Some(f.sub); }
    HolderIsFound(users1, p, f.sub, es);
    assert users2[r.id].email == users1[r.id].email;
  }

  lemma {:induction false} HolderStays(users: seq<User>, p: Provider, sub: string, i: nat, es: seq<Event>)
    requires i < |users| && FindBySub(users, p, sub) == Some(i) && Distinct(users)
    requires forall e :: e in es && e.Upsert? && e.provider == p && e.profile.email == users[i].email
                         ==> e.profile.sub == sub
    ensures HolderAfter(users, p, sub, Some(i), es) == Some(i)
    decreases |es|
  {
    if es != [] {
      assert es[0] in es;
      var users' := Apply(users, es[0]).0;
      assert !TakesOver(users, es[0], p, i);
      HolderAfterEvent(users, es[0], p, sub, i);
      ApplyKeepsDistinct(users, es[0]);
      assert users'[i].email == users[i].email;
      HolderStays(users', p, sub, i, es[1..]);
    }
  }

  /** So it does, and changes nothing, right away or after any run without another profile of that user's email. */
  lemma UpsertIsStable(users: seq<User>, p: Provider, f: Profile, es: seq<Event>)
    requires Distinct(users)
    requires var (users1, r) := Apply(users, Upsert(p, f));
             forall e :: e in es && e.Upsert? && e.provider == p && e.profile.email == users1[r.id].email
                         ==> e.profile.sub == f.sub
    ensures var (users1, r) := Apply(users, Upsert(p, f));
            Apply(Exec(users1, es), Upsert(p, f)) == (Exec(users1, es), r)
  {
    var (users1, r) := Apply(users, Upsert(p, f));
    ApplyKeepsDistinct(users, Upsert(p, f));
    assert FindBySub(users1, p, f.sub) == Some(r.id) by { assert Sub(users1[r.id], p) == Some(f.sub); }
    HolderStays(users1, p, f.sub, r.id, es);
    HolderIsFound(users1, p, f.sub, es);
    UpsertReturnsExactly(users, p, f, es);
  }

  /** When the column is taken over it can fail: a second subject with the same email takes the column over. */
  lemma UpsertCanMoveToAnotherUser()
    ensures var f := Profile("s", "b@x", "n");
            var users := [NewOAuth("a@x", "n", Google, "s")];
            var es := [Upsert(Google, Profile("t", "a@x", "n"))];
            && Apply(users, Upsert(Google, f)).1 == Ok(0)
            && Apply(Exec(users, es), Upsert(Google, f)).1 == Ok(1)
  {
    var users := [NewOAuth("a@x", "n", Google, "s")];
    var e := Upsert(Google, Profile("t", "a@x", "n"));
    assert "s" != "t" && "b@x" != "a@x" by { assert "s"[0] != "t"[0] && "b@x"[0] != "a@x"[0]; }
    assert Apply(users, e).0 == [users[0].(googleSub := Some("t"))];
    assert Exec(users, [e]) == Exec(Apply(users, e).0, []) by { assert [e][1..] == []; }
  }

  // ---------- The service objects ----------

  class UserDirectory {
    var users: seq<User>

    constructor ()
      ensures users == []
    {
      users := [];
    }

    method Register(email: string, displayName: string, verified: bool) returns (r: Result)
      modifies this
      ensures (users, r) == Apply(old(users), Signup(email, displayName, verified))
      ensures old(Distinct(users)) ==> Distinct(users)
    {
      ghost var before := users;
      if Distinct(before) { ApplyKeepsDistinct(before, Signup(email, displayName, verified)); }
      var existing := FindByEmail(users, email);
      if existing.Some? { return EmailInUse; }
      users := users + [NewSignup(email, displayName, verified)];
      return Ok(|users| - 1);
    }

    method RegisterOAuthUser(email: string, displayName: string, p: Provider, sub: string) returns (r: Result)
      modifies this
      ensures r == EmailInUse <==> exists i :: 0 <= i < |old(users)| && old(users)[i].email == email
      ensures users == if r.Ok? then old(users) + [NewOAuth(email, displayName, p, sub)] else old(users)
      ensures r.Ok? ==> r.id == |old(users)|
    {
      var existing := FindByEmail(users, email);
      if existing.Some? { return EmailInUse; }
      users := users + [NewOAuth(email, displayName, p, sub)];
      return Ok(|users| - 1);
    }

    method LinkOAuthToExistingUser(id: nat, p: Provider, sub: string)
      requires id < |users|
      modifies this
      ensures users == old(users)[id := WithSub(old(users)[id], p, sub).(emailVerified := true)]
    {
      var user := WithSub(users[id], p, sub);
      user := user.(emailVerified := true);
      users := users[id := user];
    }

    /** upsertGoogleUser, upsertGithubUser and upsertAppleUser differ only in the column they use. */
    method UpsertUser(p: Provider, f: Profile) returns (r: Result)
      modifies this
      ensures (users, r) == Apply(old(users), Upsert(p, f)) && r.Ok?
      ensures old(Distinct(users)) ==> Distinct(users)
    {
      ghost var before := users;
      if Distinct(before) { ApplyKeepsDistinct(before, Upsert(p, f)); }
      var found := FindBySub(users, p, f.sub);
      if found.Some? { return Ok(found.value); }
      found := FindByEmail(users, f.email);
      if found.Some? {
        LinkOAuthToExistingUser(found.value, p, f.sub);
        return Ok(found.value);
      }
      r := RegisterOAuthUser(f.email, f.name, p, f.sub);
    }
  }
}
