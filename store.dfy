/** The two MongoDB collections the backend uses, as sequences of documents in
    insertion order: users (server.js lines 25-30) and chat sessions (lines
    32-37), and the queries it runs on them. */
module Store {
  import opened Wrappers
  import opened Credentials

  /** A user document. `passwordHash` is the bcrypt output kept in the
      `password` field. */
  datatype User = User(id: nat, name: string, email: string, passwordHash: string, createdAt: nat)

  /** A chat-session document: one message and the reply it got. */
  datatype Session = Session(id: nat, userId: nat, message: string, reply: string, createdAt: nat)

  /** A user document as `select('-password')` returns it. */
  datatype Profile = Profile(id: nat, name: string, email: string, createdAt: nat)

  /** The payload `{id, name, email}` that register and login return and sign. */
  function PublicView(u: User): (payload: Claims) {
    Claims(u.id, u.name, u.email)
  }

  function ProfileOf(u: User): (profile: Profile) {
    Profile(u.id, u.name, u.email, u.createdAt)
  }

  /** Neither view depends on the password hash, so neither can reveal it. */
  lemma ViewsOmitHash(u: User, otherHash: string)
    ensures PublicView(u) == PublicView(u.(passwordHash := otherHash))
    ensures ProfileOf(u) == ProfileOf(u.(passwordHash := otherHash))
  {
  }

  /** The unique index on `email` (server.js line 27). */
  ghost predicate DistinctEmails(users: seq<User>) {
    forall i, j :: 0 <= i < j < |users| ==> users[i].email != users[j].email
  }

  ghost predicate DistinctIds(users: seq<User>) {
    forall i, j :: 0 <= i < j < |users| ==> users[i].id != users[j].id
  }

  /** `User.findOne({email})`: the first user with that e-mail. */
  function FindByEmail(users: seq<User>, email: string): (r: Option<User>)
    ensures r.Some? ==> r.value in users && r.value.email == email
    ensures r.None? <==> forall u :: u in users ==> u.email != email
  {
    if users == [] then None
    else if users[0].email == email then Some(users[0])
    else FindByEmail(users[1..], email)
  }

  /** `User.findById(id)`: the first user with that id. */
  function FindById(users: seq<User>, id: nat): (r: Option<User>)
    ensures r.Some? ==> r.value in users && r.value.id == id
    ensures r.None? <==> forall u :: u in users ==> u.id != id
  {
    if users == [] then None
    else if users[0].id == id then Some(users[0])
    else FindById(users[1..], id)
  }

  /** Appending a user to the collection: lookups for other addresses are
      unchanged, and an address no one had before now finds the new user. */
  lemma {:induction false} FindAfterAppend(users: seq<User>, u: User, email: string)
    ensures FindByEmail(users + [u], email) ==
      if FindByEmail(users, email).Some? then FindByEmail(users, email)
      else if u.email == email then Some(u) else None
  {
    if users == [] {
      assert users + [u] == [u];
    } else {
      assert (users + [u])[1..] == users[1..] + [u];
      FindAfterAppend(users[1..], u, email);
    }
  }

  /** Saving a user whose e-mail and id are both new keeps the unique index
      intact, and its e-mail then finds exactly that user. */
  lemma AppendNewUser(users: seq<User>, u: User)
    requires DistinctEmails(users) && DistinctIds(users)
    requires forall v :: v in users ==> v.email != u.email && v.id != u.id
    ensures DistinctEmails(users + [u]) && DistinctIds(users + [u])
    ensures FindByEmail(users + [u], u.email) == Some(u)
    ensures CountEmail(users + [u], u.email) == 1
  {
    var r := users + [u];
    forall i, j | 0 <= i < j < |r| ensures r[i].email != r[j].email && r[i].id != r[j].id {
      if j == |users| {
        assert r[i] in users;
      } else {
        assert r[i] == users[i] && r[j] == users[j];
      }
    }
    FindAfterAppend(users, u, u.email);
    CountUnderUniqueIndex(r, u.email);
  }

  /** Under the unique index, two users with the same e-mail are the same user. */
  lemma EmailDeterminesUser(users: seq<User>, u: User, v: User)
    requires DistinctEmails(users)
    requires u in users && v in users && u.email == v.email
    ensures u == v
  {
    var i :| 0 <= i < |users| && users[i] == u;
    var j :| 0 <= j < |users| && users[j] == v;
    assert i == j;
  }

  /** Likewise for ids. */
  lemma IdDeterminesUser(users: seq<User>, u: User, v: User)
    requires DistinctIds(users)
    requires u in users && v in users && u.id == v.id
    ensures u == v
  {
    var i :| 0 <= i < |users| && users[i] == u;
    var j :| 0 <= j < |users| && users[j] == v;
    assert i == j;
  }

  /** How many users have the given e-mail. */
  function CountEmail(users: seq<User>, email: string): (n: nat) {
    if users == [] then 0
    else (if users[0].email == email then 1 else 0) + CountEmail(users[1..], email)
  }

  /** Under the unique index there is exactly one user for a registered e-mail
      and none for any other. */
  lemma {:induction false} CountUnderUniqueIndex(users: seq<User>, email: string)
    requires DistinctEmails(users)
    ensures CountEmail(users, email) == if FindByEmail(users, email).Some? then 1 else 0
  {
    if users != [] {
      assert DistinctEmails(users[1..]) by {
        forall i, j | 0 <= i < j < |users[1..]| ensures users[1..][i].email != users[1..][j].email {
          assert users[1..][i] == users[i + 1] && users[1..][j] == users[j + 1];
        }
      }
      CountUnderUniqueIndex(users[1..], email);
      if users[0].email == email {
        assert FindByEmail(users[1..], email).None? by {
          forall u | u in users[1..] ensures u.email != email {
            var j :| 0 <= j < |users[1..]| && users[1..][j] == u;
            assert users[j + 1] == u;
          }
        }
      }
    }
  }

  /** `Session.find({userId})`: the caller's sessions, in insertion order. */
  function Owned(log: seq<Session>, userId: nat): (r: seq<Session>)
    ensures forall s :: s in r <==> s in log && s.userId == userId
  {
    if log == [] then []
    else (if log[0].userId == userId then [log[0]] else []) + Owned(log[1..], userId)
  }

  /** Saving a session adds it at the end of its owner's sessions and of no
      one else's. */
  lemma {:induction false} OwnedAppend(log: seq<Session>, s: Session, userId: nat)
    ensures Owned(log + [s], userId) == Owned(log, userId) + (if s.userId == userId then [s] else [])
  {
    if log == [] {
      assert log + [s] == [s];
    } else {
      assert (log + [s])[1..] == log[1..] + [s];
      OwnedAppend(log[1..], s, userId);
    }
  }

  /** Ordered by `createdAt`, most recent first. */
  ghost predicate NewestFirst(s: seq<Session>) {
    forall i, j :: 0 <= i < j < |s| ==> s[i].createdAt >= s[j].createdAt
  }

  /** No two sessions were created at the same instant. */
  ghost predicate DistinctStamps(s: seq<Session>) {
    forall i, j :: 0 <= i < j < |s| ==> s[i].createdAt != s[j].createdAt
  }

  /** Putting a session in front of older ones keeps the order. */
  lemma ConsNewestFirst(a: Session, t: seq<Session>)
    requires NewestFirst(t)
    requires forall y :: y in t ==> y.createdAt <= a.createdAt
    ensures NewestFirst([a] + t)
  {
    var r := [a] + t;
    forall i, j | 0 <= i < j < |r| ensures r[i].createdAt >= r[j].createdAt {
      assert r[j] == t[j - 1];
      if i > 0 { assert r[i] == t[i - 1]; } else { assert t[j - 1] in t; }
    }
  }

  /** In an ordered list, everything after the head is no newer than it. */
  lemma TailBelowHead(s: seq<Session>)
    requires NewestFirst(s) && s != []
    ensures forall y :: y in s[1..] ==> y.createdAt <= s[0].createdAt
  {
    forall y | y in s[1..] ensures y.createdAt <= s[0].createdAt {
      var j :| 0 <= j < |s[1..]| && s[1..][j] == y;
      assert s[j + 1] == y;
    }
  }

  /** Puts `x` in place in a list ordered most recent first. */
  function Insert(x: Session, s: seq<Session>): (r: seq<Session>)
    requires NewestFirst(s)
    ensures NewestFirst(r)
    ensures multiset(r) == multiset(s) + multiset{x}
    ensures forall y :: y in r <==> y == x || y in s
  {
    if s == [] || x.createdAt >= s[0].createdAt then [x] + s
    else
      var t := Insert(x, s[1..]);
      assert s == [s[0]] + s[1..];
      TailBelowHead(s);
      ConsNewestFirst(s[0], t);
      [s[0]] + t
  }

  /** `.sort({createdAt: -1})`. */
  function SortNewestFirst(s: seq<Session>): (r: seq<Session>)
    ensures NewestFirst(r)
    ensures multiset(r) == multiset(s)
    ensures forall y :: y in r <==> y in s
  {
    if s == [] then []
    else
      assert s == [s[0]] + s[1..];
      Insert(s[0], SortNewestFirst(s[1..]))
  }

  /** `.limit(n)`. */
  function Limit(s: seq<Session>, n: nat): (r: seq<Session>)
    ensures |r| == if |s| <= n then |s| else n
    ensures r == s[..|r|]
  {
    if |s| <= n then s else s[..n]
  }

  /** The number of sessions the listing returns at most (server.js line 140). */
  const HistoryLimit: nat := 100

  /** `Session.find({userId}).sort({createdAt: -1}).limit(limit)`. */
  function History(log: seq<Session>, userId: nat, limit: nat): (r: seq<Session>)
    ensures |r| <= limit
    ensures forall s :: s in r ==> s in log && s.userId == userId
  {
    LimitKeepsPrefix(SortNewestFirst(Owned(log, userId)), limit);
    Limit(SortNewestFirst(Owned(log, userId)), limit)
  }

  /** The listing holds only the caller's sessions, most recent first, at most
      `limit` of them; it leaves out only sessions older than everything it
      shows, and when the caller owns no more than `limit` it shows them all. */
  lemma HistorySpec(log: seq<Session>, userId: nat, limit: nat)
    ensures var r := History(log, userId, limit);
      && (forall s :: s in r ==> s in log && s.userId == userId)
      && NewestFirst(r)
      && |r| == (if |Owned(log, userId)| <= limit then |Owned(log, userId)| else limit)
      && (forall s, t :: s in log && s.userId == userId && s !in r && t in r ==>
            s.createdAt <= t.createdAt)
      && (|Owned(log, userId)| <= limit ==>
            forall s :: s in log && s.userId == userId ==> s in r)
  {
    var sorted := SortNewestFirst(Owned(log, userId));
    var r := History(log, userId, limit);
    SortedLength(Owned(log, userId));
    LimitKeepsPrefix(sorted, limit);
    forall s, t | s in log && s.userId == userId && s !in r && t in r
      ensures s.createdAt <= t.createdAt
    {
      LimitDropsOlder(sorted, limit, s, t);
    }
  }

  /** Sessions are isolated per user: another user's new session does not
      change the caller's listing. */
  lemma HistoryIgnoresOthers(log: seq<Session>, s: Session, userId: nat, limit: nat)
    requires s.userId != userId
    ensures History(log + [s], userId, limit) == History(log, userId, limit)
  {
    OwnedAppend(log, s, userId);
    assert Owned(log, userId) + [] == Owned(log, userId);
  }

  /** A user's first session is all that its listing shows. */
  lemma HistoryOfOne(s: Session, limit: nat)
    requires limit >= 1
    ensures History([s], s.userId, limit) == [s]
  {
    assert [s][1..] == [];
  }

  lemma SortedLength(s: seq<Session>)
    ensures |SortNewestFirst(s)| == |s|
  {
    var r := SortNewestFirst(s);
    assert |r| == |multiset(r)| == |multiset(s)| == |s|;
  }

  lemma LimitKeepsPrefix(s: seq<Session>, n: nat)
    requires NewestFirst(s)
    ensures NewestFirst(Limit(s, n))
    ensures forall y :: y in Limit(s, n) ==> y in s
  {
    var r := Limit(s, n);
    forall y | y in r ensures y in s {
      var q :| 0 <= q < |r| && r[q] == y;
      assert s[q] == y;
    }
  }

  /** What `.limit` cuts off from a list ordered most recent first is no newer
      than what it keeps. */
  lemma LimitDropsOlder(s: seq<Session>, n: nat, x: Session, t: Session)
    requires NewestFirst(s)
    requires x in s && x !in Limit(s, n) && t in Limit(s, n)
    ensures x.createdAt <= t.createdAt
  {
    var r := Limit(s, n);
    var p :| 0 <= p < |s| && s[p] == x;
    var q :| 0 <= q < |r| && r[q] == t;
    assert s[q] == t;
    forall k | 0 <= k < |r| ensures s[k] != x {
      assert r[k] == s[k] && r[k] in r;
    }
  }

  /** The caller's sessions inherit distinct creation times from the log. */
  lemma {:induction false} OwnedDistinct(log: seq<Session>, userId: nat)
    requires DistinctStamps(log)
    ensures DistinctStamps(Owned(log, userId))
  {
    if log != [] {
      var tail := log[1..];
      assert DistinctStamps(tail) by {
        forall i, j | 0 <= i < j < |tail| ensures tail[i].createdAt != tail[j].createdAt {
          assert tail[i] == log[i + 1] && tail[j] == log[j + 1];
        }
      }
      OwnedDistinct(tail, userId);
      var rest := Owned(tail, userId);
      forall y | y in rest ensures y.createdAt != log[0].createdAt {
        var j :| 0 <= j < |tail| && tail[j] == y;
        assert log[j + 1] == y;
      }
    }
  }

  /** Sorting sessions with distinct creation times orders them strictly. */
  lemma {:induction false} SortStrict(s: seq<Session>)
    requires DistinctStamps(s)
    ensures StrictlyNewestFirst(SortNewestFirst(s))
  {
    if s != [] {
      var tail := s[1..];
      assert DistinctStamps(tail) by {
        forall i, j | 0 <= i < j < |tail| ensures tail[i].createdAt != tail[j].createdAt {
          assert tail[i] == s[i + 1] && tail[j] == s[j + 1];
        }
      }
      SortStrict(tail);
      var sortedTail := SortNewestFirst(tail);
      forall y | y in sortedTail ensures y.createdAt != s[0].createdAt {
        var j :| 0 <= j < |tail| && tail[j] == y;
        assert s[j + 1] == y;
      }
      InsertStrict(s[0], sortedTail);
    }
  }

  lemma {:induction false} InsertStrict(x: Session, s: seq<Session>)
    requires NewestFirst(s) && StrictlyNewestFirst(s)
    requires forall y :: y in s ==> y.createdAt != x.createdAt
    ensures StrictlyNewestFirst(Insert(x, s))
  {
    if s == [] || x.createdAt >= s[0].createdAt {
      forall y | y in s ensures y.createdAt < x.createdAt {
        var j :| 0 <= j < |s| && s[j] == y;
        assert s[0].createdAt >= s[j].createdAt;
      }
      ConsStrict(x, s);
    } else {
      var tail := s[1..];
      assert StrictlyNewestFirst(tail) by {
        forall i, j | 0 <= i < j < |tail| ensures tail[i].createdAt > tail[j].createdAt {
          assert tail[i] == s[i + 1] && tail[j] == s[j + 1];
        }
      }
      InsertStrict(x, tail);
      var t := Insert(x, tail);
      forall y | y in t ensures y.createdAt < s[0].createdAt {
        if y != x {
          var j :| 0 <= j < |tail| && tail[j] == y;
          assert s[j + 1] == y;
        }
      }
      ConsStrict(s[0], t);
    }
  }

  ghost predicate StrictlyNewestFirst(s: seq<Session>) {
    forall i, j :: 0 <= i < j < |s| ==> s[i].createdAt > s[j].createdAt
  }

  lemma ConsStrict(a: Session, t: seq<Session>)
    requires StrictlyNewestFirst(t)
    requires forall y :: y in t ==> y.createdAt < a.createdAt
    ensures StrictlyNewestFirst([a] + t)
  {
    var r := [a] + t;
    forall i, j | 0 <= i < j < |r| ensures r[i].createdAt > r[j].createdAt {
      assert r[j] == t[j - 1];
      if i > 0 { assert r[i] == t[i - 1]; } else { assert t[j - 1] in t; }
    }
  }

  /** When no two sessions share a creation time, the listing is strictly
      most recent first. */
  lemma HistoryStrict(log: seq<Session>, userId: nat, limit: nat)
    requires DistinctStamps(log)
    ensures StrictlyNewestFirst(History(log, userId, limit))
  {
    OwnedDistinct(log, userId);
    SortStrict(Owned(log, userId));
    var sorted := SortNewestFirst(Owned(log, userId));
    var r := History(log, userId, limit);
    forall i, j | 0 <= i < j < |r| ensures r[i].createdAt > r[j].createdAt {
      assert r[i] == sorted[i] && r[j] == sorted[j];
    }
  }
}
