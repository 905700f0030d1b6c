/** Duplicating sessions for a heavier replay (src/replay/scaling.rs). */
module Scaling {
  import opened Wrappers
  import opened CaptureEvents

  datatype Query = Query(
    sql: string, startOffsetUs: nat, durationUs: nat, transactionId: Option<nat>,
    original: Option<string>, response: Option<seq<ResponseRow>>)

  datatype Session = Session(id: nat, user: string, database: string, queries: seq<Query>)

  // A copy starts later and forgets the recorded responses.
  function CopiedQuery(q: Query, offset: nat): Query {
    q.(startOffsetUs := q.startOffsetUs + offset, original := None, response := None)
  }

  function Copied(s: Session, id: nat, offset: nat): Session {
    Session(id, s.user, s.database,
            seq(|s.queries|, i requires 0 <= i < |s.queries| => CopiedQuery(s.queries[i], offset)))
  }

  // The session x is o started later by `offset`: the same user, database and statements, without the original
  // texts and the recorded responses.
  predicate CopyOf(x: Session, o: Session, offset: nat) {
    && x.user == o.user && x.database == o.database && |x.queries| == |o.queries|
    && forall j :: 0 <= j < |o.queries| ==>
         var q := o.queries[j];
         x.queries[j] == Query(q.sql, q.startOffsetUs + offset, q.durationUs, q.transactionId, None, None)
  }

  lemma CopiedIsCopy(o: Session, id: nat, offset: nat)
    ensures Copied(o, id, offset).id == id && CopyOf(Copied(o, id, offset), o, offset)
  {
  }

  predicate Distinct(sessions: seq<Session>) {
    forall i, j :: 0 <= i < j < |sessions| ==> sessions[i].id != sessions[j].id
  }

  lemma DistinctConcat(a: seq<Session>, b: seq<Session>)
    ensures Distinct(a + b)
       <==> Distinct(a) && Distinct(b) && forall x, y :: x in a && y in b ==> x.id != y.id
  {
    var all := a + b;
    if Distinct(all) {
      assert forall i :: 0 <= i < |a| ==> all[i] == a[i];
      assert forall j :: 0 <= j < |b| ==> all[|a| + j] == b[j];
      forall x, y | x in a && y in b ensures x.id != y.id {
        var i :| 0 <= i < |a| && a[i] == x;
        var j :| 0 <= j < |b| && b[j] == y;
        assert all[i].id != all[|a| + j].id;
      }
    }
  }

  // ---- the same factor for all sessions ----

  function CopyId(s: Session, k: nat, count: nat): nat {
    s.id + k * count
  }

  // The copy number k of every session.
  function CopyAll(sessions: seq<Session>, k: nat, staggerUs: nat): seq<Session> {
    seq(|sessions|, i requires 0 <= i < |sessions| =>
      Copied(sessions[i], CopyId(sessions[i], k, |sessions|), k * staggerUs))
  }

  function Copies(sessions: seq<Session>, n: nat, staggerUs: nat): seq<Session> {
    if n == 0 then [] else Copies(sessions, n - 1, staggerUs) + CopyAll(sessions, n - 1, staggerUs)
  }

  function ScaledSessions(sessions: seq<Session>, scale: nat, staggerMs: nat): seq<Session> {
    if scale <= 1 then sessions else Copies(sessions, scale, staggerMs * 1000)
  }

  method ScaleSessions(sessions: seq<Session>, scale: nat, staggerMs: nat) returns (scaled: seq<Session>)
    ensures scaled == ScaledSessions(sessions, scale, staggerMs)
  {
    if scale <= 1 { return sessions; }
    var staggerUs := staggerMs * 1000;
    scaled := [];
    for k := 0 to scale
      invariant scaled == Copies(sessions, k, staggerUs)
    {
      ghost var all := CopyAll(sessions, k, staggerUs);
      for i := 0 to |sessions|
        invariant scaled == Copies(sessions, k, staggerUs) + all[..i]
      {
        var copy := Copied(sessions[i], CopyId(sessions[i], k, |sessions|), k * staggerUs);
        assert all[..i + 1] == all[..i] + [copy];
        scaled := scaled + [copy];
      }
      assert all[..|sessions|] == all;
    }
  }

  lemma {:induction false} CopiesAt(sessions: seq<Session>, n: nat, staggerUs: nat, k: nat, i: nat)
    requires k < n && i < |sessions|
    ensures var all := Copies(sessions, n, staggerUs);
            && |all| == n * |sessions| && k * |sessions| + i < |all|
            && all[k * |sessions| + i].id == sessions[i].id + k * |sessions|
            && CopyOf(all[k * |sessions| + i], sessions[i], k * staggerUs)
  {
    var before := Copies(sessions, n - 1, staggerUs);
    assert n * |sessions| == (n - 1) * |sessions| + |sessions|;
    if n > 1 { CopiesAt(sessions, n - 1, staggerUs, if k < n - 1 then k else 0, i); }
    if k == n - 1 { CopiedIsCopy(sessions[i], CopyId(sessions[i], k, |sessions|), k * staggerUs); }
  }

  /** Scaling by n gives n copies one after the other, the k-th one k staggers later and with k times the number
      of sessions added to the ids; a factor of zero or one changes nothing. */
  lemma ScaledAt(sessions: seq<Session>, scale: nat, staggerMs: nat, k: nat, i: nat)
    requires i < |sessions| && k < scale
    ensures var scaled := ScaledSessions(sessions, scale, staggerMs);
            && |scaled| == scale * |sessions| && k * |sessions| + i < |scaled|
            && scaled[k * |sessions| + i].id == sessions[i].id + k * |sessions|
            && (scale > 1 ==> CopyOf(scaled[k * |sessions| + i], sessions[i], k * (staggerMs * 1000)))
            && (scale == 1 ==> scaled == sessions)
    ensures ScaledSessions(sessions, 0, staggerMs) == sessions
  {
    if scale > 1 { CopiesAt(sessions, scale, staggerMs * 1000, k, i); }
  }

  // No two sessions have ids that a copy number below `scale` can bring together.
  ghost predicate Apart(sessions: seq<Session>, scale: nat) {
    forall i, j, k :: 0 <= i < |sessions| && 0 <= j < |sessions| && i != j && 0 <= k < scale ==>
                        CopyId(sessions[i], k, |sessions|) != sessions[j].id
  }

  // No copy below n meets copy n.
  ghost predicate FreshAt(sessions: seq<Session>, n: nat) {
    forall i, j, k :: 0 <= i < |sessions| && 0 <= j < |sessions| && 0 <= k < n ==>
                        CopyId(sessions[i], n, |sessions|) != CopyId(sessions[j], k, |sessions|)
  }

  lemma {:induction false} CopiesHave(sessions: seq<Session>, n: nat, staggerUs: nat, id: nat)
    ensures (exists x :: x in Copies(sessions, n, staggerUs) && x.id == id)
       <==> exists j, k :: 0 <= j < |sessions| && 0 <= k < n && CopyId(sessions[j], k, |sessions|) == id
  {
    if n == 0 {
    } else {
      var before, last := Copies(sessions, n - 1, staggerUs), CopyAll(sessions, n - 1, staggerUs);
      CopiesHave(sessions, n - 1, staggerUs, id);
      if j, k :| 0 <= j < |sessions| && 0 <= k < n && CopyId(sessions[j], k, |sessions|) == id {
        if k == n - 1 {
          assert last[j] in before + last && last[j].id == id;
        } else {
          var x :| x in before && x.id == id;
          assert x in before + last;
        }
      }
      if x :| x in before + last && x.id == id {
        if x in last {
          var j :| 0 <= j < |last| && last[j] == x;
          assert CopyId(sessions[j], n - 1, |sessions|) == id;
        }
      }
    }
  }

  lemma CopyDistinct(sessions: seq<Session>, k: nat, staggerUs: nat)
    ensures Distinct(CopyAll(sessions, k, staggerUs)) <==> Distinct(sessions)
  {
    var copy := CopyAll(sessions, k, staggerUs);
    assert forall i :: 0 <= i < |sessions| ==> copy[i].id == sessions[i].id + k * |sessions|;
  }

  lemma FreshApart(sessions: seq<Session>, n: nat, staggerUs: nat, x: Session, y: Session)
    requires FreshAt(sessions, n)
    requires x in Copies(sessions, n, staggerUs) && y in CopyAll(sessions, n, staggerUs)
    ensures x.id != y.id
  {
    CopiesHave(sessions, n, staggerUs, x.id);
    var i :| 0 <= i < |sessions| && CopyAll(sessions, n, staggerUs)[i] == y;
    assert y.id == CopyId(sessions[i], n, |sessions|);
  }

  lemma Meeting(sessions: seq<Session>, n: nat, staggerUs: nat, i: nat, j: nat, k: nat) returns (x: Session, y: Session)
    requires i < |sessions| && j < |sessions| && k < n
    requires CopyId(sessions[i], n, |sessions|) == CopyId(sessions[j], k, |sessions|)
    ensures x in Copies(sessions, n, staggerUs) && y in CopyAll(sessions, n, staggerUs) && x.id == y.id
  {
    y := CopyAll(sessions, n, staggerUs)[i];
    CopiesHave(sessions, n, staggerUs, y.id);
    x :| x in Copies(sessions, n, staggerUs) && x.id == y.id;
  }

  lemma FreshIff(sessions: seq<Session>, n: nat, staggerUs: nat)
    ensures FreshAt(sessions, n)
       <==> forall x, y :: x in Copies(sessions, n, staggerUs) && y in CopyAll(sessions, n, staggerUs) ==> x.id != y.id
  {
    if FreshAt(sessions, n) {
      forall x, y | x in Copies(sessions, n, staggerUs) && y in CopyAll(sessions, n, staggerUs) ensures x.id != y.id {
        FreshApart(sessions, n, staggerUs, x, y);
      }
    } else {
      var i, j, k :| 0 <= i < |sessions| && 0 <= j < |sessions| && 0 <= k < n
                     && CopyId(sessions[i], n, |sessions|) == CopyId(sessions[j], k, |sessions|);
      var _, _ := Meeting(sessions, n, staggerUs, i, j, k);
    }
  }

  lemma OneMoreCopy(sessions: seq<Session>, n: nat, staggerUs: nat)
    ensures Distinct(Copies(sessions, n + 1, staggerUs))
       <==> Distinct(Copies(sessions, n, staggerUs)) && Distinct(sessions) && FreshAt(sessions, n)
  {
    DistinctConcat(Copies(sessions, n, staggerUs), CopyAll(sessions, n, staggerUs));
    CopyDistinct(sessions, n, staggerUs);
    FreshIff(sessions, n, staggerUs);
  }

  lemma CopyIdShift(s: Session, k: nat, d: nat, count: nat)
    ensures CopyId(s, k + d, count) == CopyId(s, d, count) + k * count
  {
  }

  lemma OneMoreApart(sessions: seq<Session>, n: nat)
    requires Apart(sessions, n) && n > 0
    ensures Apart(sessions, n + 1) <==> FreshAt(sessions, n)
  {
    var count := |sessions|;
    if Apart(sessions, n + 1) {
      forall i, j, k | 0 <= i < count && 0 <= j < count && 0 <= k < n
        ensures CopyId(sessions[i], n, count) != CopyId(sessions[j], k, count)
      {
        CopyIdShift(sessions[i], k, n - k, count);
        assert i == j ==> (n - k) * count >= 1 * count by { Grows(n - k, count); }
        assert i != j ==> CopyId(sessions[i], n - k, count) != sessions[j].id;
      }
    }
    if FreshAt(sessions, n) {
      forall i, j, k | 0 <= i < count && 0 <= j < count && i != j && 0 <= k < n + 1
        ensures CopyId(sessions[i], k, count) != sessions[j].id
      {
        assert k == n ==> CopyId(sessions[i], n, count) != CopyId(sessions[j], 0, count);
      }
    }
  }

  lemma Grows(a: nat, b: nat)
    requires a > 0
    ensures a * b >= b
  {
    assert a * b == (a - 1) * b + b;
  }

  lemma {:induction false} CopiesDistinctIff(sessions: seq<Session>, n: nat, staggerUs: nat)
    requires n > 0
    ensures Distinct(Copies(sessions, n, staggerUs)) <==> Apart(sessions, n)
  {
    OneMoreCopy(sessions, n - 1, staggerUs);
    if n == 1 {
      assert Copies(sessions, 0, staggerUs) == [];
      ApartOne(sessions);
    } else {
      CopiesDistinctIff(sessions, n - 1, staggerUs);
      if Apart(sessions, n) { ApartLess(sessions, n); }
      if Apart(sessions, n - 1) { OneMoreApart(sessions, n - 1); }
      if Apart(sessions, n - 1) { ApartDistinct(sessions, n - 1); }
    }
  }

  lemma ApartOne(sessions: seq<Session>)
    ensures Apart(sessions, 1) <==> Distinct(sessions)
  {
    assert forall i :: 0 <= i < |sessions| ==> CopyId(sessions[i], 0, |sessions|) == sessions[i].id;
  }

  lemma ApartLess(sessions: seq<Session>, n: nat)
    requires n > 0 && Apart(sessions, n)
    ensures Apart(sessions, n - 1)
  {
  }

  lemma ApartDistinct(sessions: seq<Session>, n: nat)
    requires n > 0 && Apart(sessions, n)
    ensures Distinct(sessions)
  {
    assert forall i :: 0 <= i < |sessions| ==> CopyId(sessions[i], 0, |sessions|) == sessions[i].id;
  }

  /** The scaled sessions have different ids exactly if no session's id is another's plus k times the number
      of sessions, for a copy number k below the factor. */
  lemma ScaledDistinctIff(sessions: seq<Session>, scale: nat, staggerMs: nat)
    ensures Distinct(ScaledSessions(sessions, scale, staggerMs))
       <==> Apart(sessions, if scale == 0 then 1 else scale)
  {
    if scale <= 1 { ApartOne(sessions); } else { CopiesDistinctIff(sessions, scale, staggerMs * 1000); }
  }

  /** Sessions that have the ids 1 to N in any order stay apart under every factor. */
  lemma CountedIdsStayApart(sessions: seq<Session>, scale: nat, staggerMs: nat)
    requires Distinct(sessions) && forall i :: 0 <= i < |sessions| ==> 1 <= sessions[i].id <= |sessions|
    ensures Distinct(ScaledSessions(sessions, scale, staggerMs))
  {
    var count := |sessions|;
    forall i, j, k | 0 <= i < count && 0 <= j < count && i != j && 0 <= k < scale + 1
      ensures CopyId(sessions[i], k, count) != sessions[j].id
    {
      if k > 0 { Grows(k, count); }
    }
    ScaledDistinctIff(sessions, scale, staggerMs);
  }

  /** Sessions 1 and 3, doubled: the copy of session 1 is session 3 as well. */
  lemma CopiesCollide(a: Session, b: Session, staggerMs: nat)
    requires a.id == 1 && b.id == 3
    ensures Distinct([a, b]) && !Distinct(ScaledSessions([a, b], 2, staggerMs))
  {
    ScaledDistinctIff([a, b], 2, staggerMs);
    assert CopyId([a, b][0], 1, 2) == [a, b][1].id;
  }

  // ---- a factor for each class of sessions ----

  // The classes in the order in which the hash map happens to list them, each with its factor.
  datatype Class = Class(name: nat, scale: nat)

  function Members(sessions: seq<Session>, classify: Session -> nat, name: nat): seq<Session> {
    if sessions == [] then []
    else
      var n := |sessions| - 1;
      Members(sessions[..n], classify, name) + if classify(sessions[n]) == name then [sessions[n]] else []
  }

  function Originals(sessions: seq<Session>, classify: Session -> nat, class_: Class): seq<Session> {
    if class_.scale == 0 then [] else Members(sessions, classify, class_.name)
  }

  // The sessions of the first n classes, those with factor zero left out.
  function Kept(sessions: seq<Session>, classify: Session -> nat, classes: seq<Class>, n: nat): seq<Session>
    requires n <= |classes|
  {
    if n == 0 then [] else Kept(sessions, classify, classes, n - 1) + Originals(sessions, classify, classes[n - 1])
  }

  // The sessions so far, the next free id and the number of copies made.
  datatype Progress = Progress(result: seq<Session>, nextId: nat, copies: nat)

  function AddCopy(p: Progress, members: seq<Session>, n: nat, staggerUs: nat): Progress
    requires n <= |members|
  {
    if n == 0 then p
    else
      var q := AddCopy(p, members, n - 1, staggerUs);
      q.(result := q.result + [Copied(members[n - 1], q.nextId, p.copies * staggerUs)], nextId := q.nextId + 1)
  }

  function AddCopies(p: Progress, members: seq<Session>, times: nat, staggerUs: nat): Progress {
    if times == 0 then p
    else
      var q := AddCopies(p, members, times - 1, staggerUs);
      AddCopy(q.(copies := q.copies + 1), members, |members|, staggerUs)
  }

  function AddClasses(p: Progress, sessions: seq<Session>, classify: Session -> nat, classes: seq<Class>, n: nat,
                      staggerUs: nat): Progress
    requires n <= |classes|
  {
    if n == 0 then p
    else
      var q := AddClasses(p, sessions, classify, classes, n - 1, staggerUs);
      AddCopies(q, Members(sessions, classify, classes[n - 1].name), Extra(classes[n - 1]), staggerUs)
  }

  // How many copies a class gets besides the originals.
  function Extra(class_: Class): nat {
    if class_.scale <= 1 then 0 else class_.scale - 1
  }

  function MaxId(sessions: seq<Session>): (m: nat)
    ensures forall x :: x in sessions ==> x.id <= m
    ensures if sessions == [] then m == 0 else exists x :: x in sessions && x.id == m
  {
    if sessions == [] then 0
    else
      var m := MaxId(sessions[1..]);
      if sessions[0].id >= m then sessions[0].id else m
  }

  function FirstOffset(s: Session): nat {
    if s.queries == [] then 0 else s.queries[0].startOffsetUs
  }

  function Insert(sessions: seq<Session>, s: Session): seq<Session> {
    if sessions == [] then [s]
    else
      var n := |sessions| - 1;
      if FirstOffset(sessions[n]) <= FirstOffset(s) then sessions + [s] else Insert(sessions[..n], s) + [sessions[n]]
  }

  function ByFirstOffset(sessions: seq<Session>): seq<Session> {
    if sessions == [] then [] else Insert(ByFirstOffset(sessions[..|sessions| - 1]), sessions[|sessions| - 1])
  }

  function ScaledByClass(sessions: seq<Session>, classify: Session -> nat, classes: seq<Class>, staggerMs: nat)
    : seq<Session>
  {
    var p := Progress(Kept(sessions, classify, classes, |classes|), MaxId(sessions) + 1, 0);
    ByFirstOffset(AddClasses(p, sessions, classify, classes, |classes|, staggerMs * 1000).result)
  }

  // First pass: the original sessions.
  method KeepOriginals(sessions: seq<Session>, classify: Session -> nat, classes: seq<Class>)
    returns (result: seq<Session>)
    ensures result == Kept(sessions, classify, classes, |classes|)
  {
    result := [];
    for c := 0 to |classes|
      invariant result == Kept(sessions, classify, classes, c)
    {
      if classes[c].scale != 0 {
        result := result + Members(sessions, classify, classes[c].name);
      }
    }
  }

  // The copies of one class.
  method CopyClass(p: Progress, members: seq<Session>, times: nat, staggerUs: nat) returns (q: Progress)
    ensures q == AddCopies(p, members, times, staggerUs)
  {
    q := p;
    for k := 0 to times
      invariant q == AddCopies(p, members, k, staggerUs)
    {
      var result, nextId, copies := q.result, q.nextId, q.copies + 1;
      ghost var before := Progress(result, nextId, copies);
      for i := 0 to |members|
        invariant Progress(result, nextId, copies) == AddCopy(before, members, i, staggerUs)
      {
        result := result + [Copied(members[i], nextId, copies * staggerUs)];
        nextId := nextId + 1;
      }
      q := Progress(result, nextId, copies);
    }
  }

  method ScaleSessionsByClass(sessions: seq<Session>, classify: Session -> nat, classes: seq<Class>, staggerMs: nat)
    returns (result: seq<Session>)
    ensures result == ScaledByClass(sessions, classify, classes, staggerMs)
  {
    hide AddCopy, Members, Kept, MaxId, ByFirstOffset;
    var staggerUs := staggerMs * 1000;
    result := KeepOriginals(sessions, classify, classes);
    var start := Progress(result, MaxId(sessions) + 1, 0);
    var p := start;
    for c := 0 to |classes|
      invariant p == AddClasses(start, sessions, classify, classes, c, staggerUs)
    {
      if classes[c].scale > 1 {
        p := CopyClass(p, Members(sessions, classify, classes[c].name), classes[c].scale - 1, staggerUs);
      }
    }
    return ByFirstOffset(p.result);
  }

  // The copies follow the sessions in `base`, with consecutive ids from `first` on.
  ghost predicate Numbered(p: Progress, base: seq<Session>, first: nat) {
    && base <= p.result && p.nextId == first + |p.result| - |base|
    && forall i :: |base| <= i < |p.result| ==> p.result[i].id == first + i - |base|
  }

  lemma {:induction false} CopyNumbers(p: Progress, members: seq<Session>, n: nat, staggerUs: nat, base: seq<Session>,
                                       first: nat)
    requires n <= |members| && Numbered(p, base, first)
    ensures Numbered(AddCopy(p, members, n, staggerUs), base, first)
  {
    if n == 0 {
    } else {
      CopyNumbers(p, members, n - 1, staggerUs, base, first);
    }
  }

  lemma {:induction false} CopiesNumber(p: Progress, members: seq<Session>, times: nat, staggerUs: nat,
                                        base: seq<Session>, first: nat)
    requires Numbered(p, base, first)
    ensures Numbered(AddCopies(p, members, times, staggerUs), base, first)
  {
    if times == 0 {
    } else {
      CopiesNumber(p, members, times - 1, staggerUs, base, first);
      var q := AddCopies(p, members, times - 1, staggerUs);
      CopyNumbers(q.(copies := q.copies + 1), members, |members|, staggerUs, base, first);
    }
  }

  lemma {:induction false} ClassesNumber(p: Progress, sessions: seq<Session>, classify: Session -> nat,
                                         classes: seq<Class>, n: nat, staggerUs: nat, base: seq<Session>, first: nat)
    requires n <= |classes| && Numbered(p, base, first)
    ensures Numbered(AddClasses(p, sessions, classify, classes, n, staggerUs), base, first)
  {
    if n == 0 {
    } else {
      ClassesNumber(p, sessions, classify, classes, n - 1, staggerUs, base, first);
      CopiesNumber(AddClasses(p, sessions, classify, classes, n - 1, staggerUs),
                   Members(sessions, classify, classes[n - 1].name), Extra(classes[n - 1]), staggerUs, base, first);
    }
  }

  lemma NumberedDistinct(p: Progress, base: seq<Session>, first: nat)
    requires Numbered(p, base, first) && forall x :: x in base ==> x.id < first
    ensures Distinct(p.result) <==> Distinct(base)
  {
    assert forall i :: 0 <= i < |base| ==> p.result[i] == base[i] && base[i] in base;
  }

  lemma {:induction false} MembersAre(sessions: seq<Session>, classify: Session -> nat, name: nat)
    ensures forall x :: x in Members(sessions, classify, name) <==> x in sessions && classify(x) == name
    ensures Distinct(sessions) ==> Distinct(Members(sessions, classify, name))
  {
    if sessions == [] {
    } else {
      var init, last := sessions[..|sessions| - 1], sessions[|sessions| - 1];
      MembersAre(init, classify, name);
      assert sessions == init + [last];
      DistinctConcat(init, [last]);
      DistinctConcat(Members(init, classify, name), [last]);
    }
  }

  lemma OriginalsAre(sessions: seq<Session>, classify: Session -> nat, class_: Class)
    ensures forall x :: x in Originals(sessions, classify, class_) ==> x in sessions && classify(x) == class_.name
    ensures Distinct(sessions) ==> Distinct(Originals(sessions, classify, class_))
  {
    MembersAre(sessions, classify, class_.name);
  }

  // A kept session and the class that keeps it.
  lemma {:induction false} KeptFrom(sessions: seq<Session>, classify: Session -> nat, classes: seq<Class>, n: nat,
                                    x: Session) returns (c: nat)
    requires n <= |classes| && x in Kept(sessions, classify, classes, n)
    ensures x in sessions && c < n && classes[c].name == classify(x)
  {
    hide Originals, Members;
    assert n > 0;
    c := n - 1;
    if x in Originals(sessions, classify, classes[c]) {
      OriginalsAre(sessions, classify, classes[c]);
    } else {
      c := KeptFrom(sessions, classify, classes, n - 1, x);
    }
  }

  lemma SameSession(sessions: seq<Session>, x: Session, y: Session)
    requires Distinct(sessions) && x in sessions && y in sessions && x.id == y.id
    ensures x == y
  {
  }

  predicate EachOnce(classes: seq<Class>) {
    forall c, d :: 0 <= c < d < |classes| ==> classes[c].name != classes[d].name
  }

  // Two sessions of different classes are different sessions.
  lemma ClassesApart(sessions: seq<Session>, classify: Session -> nat, classes: seq<Class>, n: nat, x: Session,
                     y: Session)
    requires n < |classes| && EachOnce(classes) && Distinct(sessions)
    requires x in Kept(sessions, classify, classes, n) && y in Originals(sessions, classify, classes[n])
    ensures x.id != y.id
  {
    var c := KeptFrom(sessions, classify, classes, n, x);
    OriginalsAre(sessions, classify, classes[n]);
    if x.id == y.id { SameSession(sessions, x, y); }
  }

  lemma MoreDistinct(sessions: seq<Session>, classify: Session -> nat, classes: seq<Class>, n: nat,
                     before: seq<Session>, more: seq<Session>)
    requires n < |classes| && EachOnce(classes) && Distinct(sessions) && Distinct(before)
    requires before == Kept(sessions, classify, classes, n) && more == Originals(sessions, classify, classes[n])
    ensures Distinct(before + more)
  {
    OriginalsAre(sessions, classify, classes[n]);
    forall x, y | x in before && y in more ensures x.id != y.id {
      ClassesApart(sessions, classify, classes, n, x, y);
    }
    DistinctConcat(before, more);
  }

  lemma {:induction false} KeptDistinct(sessions: seq<Session>, classify: Session -> nat, classes: seq<Class>, n: nat)
    requires n <= |classes| && EachOnce(classes) && Distinct(sessions)
    ensures Distinct(Kept(sessions, classify, classes, n))
  {
    if n == 0 {
    } else {
      KeptDistinct(sessions, classify, classes, n - 1);
      MoreDistinct(sessions, classify, classes, n - 1, Kept(sessions, classify, classes, n - 1),
                   Originals(sessions, classify, classes[n - 1]));
    }
  }

  // ---- sorting keeps ids apart ----

  lemma {:induction false} InsertKeeps(sessions: seq<Session>, s: Session)
    ensures forall x :: x in Insert(sessions, s) <==> x in sessions + [s]
    ensures Distinct(Insert(sessions, s)) <==> Distinct(sessions + [s])
  {
    if sessions != [] && FirstOffset(sessions[|sessions| - 1]) > FirstOffset(s) {
      var init, last := sessions[..|sessions| - 1], sessions[|sessions| - 1];
      InsertKeeps(init, s);
      assert sessions == init + [last];
      DistinctConcat(Insert(init, s), [last]);
      DistinctConcat(init, [s]);
      DistinctConcat(init, [last]);
      DistinctConcat(sessions, [s]);
    }
  }

  lemma {:induction false} SortKeeps(sessions: seq<Session>)
    ensures forall x :: x in ByFirstOffset(sessions) <==> x in sessions
    ensures Distinct(ByFirstOffset(sessions)) <==> Distinct(sessions)
  {
    if sessions == [] {
    } else {
      var init, last := sessions[..|sessions| - 1], sessions[|sessions| - 1];
      SortKeeps(init);
      InsertKeeps(ByFirstOffset(init), last);
      assert sessions == init + [last];
      DistinctConcat(init, [last]);
      DistinctConcat(ByFirstOffset(init), [last]);
    }
  }

  lemma KeptBelow(sessions: seq<Session>, classify: Session -> nat, classes: seq<Class>)
    ensures forall x :: x in Kept(sessions, classify, classes, |classes|) ==> x.id < MaxId(sessions) + 1
  {
    forall x | x in Kept(sessions, classify, classes, |classes|) ensures x.id < MaxId(sessions) + 1 {
      var _ := KeptFrom(sessions, classify, classes, |classes|, x);
    }
  }

  lemma AddedDistinct(p: Progress, sessions: seq<Session>, classify: Session -> nat, classes: seq<Class>,
                      staggerUs: nat)
    requires forall x :: x in p.result ==> x.id < p.nextId
    ensures Distinct(AddClasses(p, sessions, classify, classes, |classes|, staggerUs).result) <==> Distinct(p.result)
  {
    ClassesNumber(p, sessions, classify, classes, |classes|, staggerUs, p.result, p.nextId);
    NumberedDistinct(AddClasses(p, sessions, classify, classes, |classes|, staggerUs), p.result, p.nextId);
  }

  // ---- what the copies are ----

  // One copy of a class: its members in order, with consecutive ids and one offset for all.
  function Batch(members: seq<Session>, n: nat, first: nat, offset: nat): seq<Session>
    requires n <= |members|
  {
    seq(n, i requires 0 <= i < n => Copied(members[i], first + i, offset))
  }

  lemma {:induction false} AddCopyIs(p: Progress, members: seq<Session>, n: nat, staggerUs: nat)
    requires n <= |members|
    ensures AddCopy(p, members, n, staggerUs)
         == Progress(p.result + Batch(members, n, p.nextId, p.copies * staggerUs), p.nextId + n, p.copies)
  {
    if n == 0 {
      assert p.result + Batch(members, 0, p.nextId, p.copies * staggerUs) == p.result;
    } else {
      AddCopyIs(p, members, n - 1, staggerUs);
      var last := [Copied(members[n - 1], p.nextId + n - 1, p.copies * staggerUs)];
      assert Batch(members, n, p.nextId, p.copies * staggerUs)
          == Batch(members, n - 1, p.nextId, p.copies * staggerUs) + last;
    }
  }

  // Each further copy of the class gets the next copy number, and with it the next offset.
  lemma {:induction false} AddCopiesIs(p: Progress, members: seq<Session>, times: nat, staggerUs: nat)
    ensures var q := AddCopies(p, members, times, staggerUs);
            && q.copies == p.copies + times && |q.result| == |p.result| + times * |members|
            && (times > 0 ==>
                  var before := AddCopies(p, members, times - 1, staggerUs);
                  q.result == before.result
                              + Batch(members, |members|, before.nextId, (p.copies + times) * staggerUs))
  {
    if times == 0 {
    } else {
      var before := AddCopies(p, members, times - 1, staggerUs);
      AddCopiesIs(p, members, times - 1, staggerUs);
      AddCopyIs(before.(copies := before.copies + 1), members, |members|, staggerUs);
      assert times * |members| == (times - 1) * |members| + |members|;
    }
  }

  // The session is a copy of one of the originals, of a class that is copied.
  predicate IsCopy(x: Session, sessions: seq<Session>, classify: Session -> nat, classes: seq<Class>, staggerUs: nat,
                   o: Session, k: nat)
  {
    && o in sessions && k > 0 && CopyOf(x, o, k * staggerUs)
    && exists c :: 0 <= c < |classes| && classes[c].name == classify(o) && classes[c].scale > 1
  }

  ghost predicate AllCopies(added: seq<Session>, sessions: seq<Session>, classify: Session -> nat,
                            classes: seq<Class>, staggerUs: nat)
  {
    forall x :: x in added ==> exists o, k :: IsCopy(x, sessions, classify, classes, staggerUs, o, k)
  }

  lemma BatchCopies(sessions: seq<Session>, classify: Session -> nat, classes: seq<Class>, c: nat, first: nat, k: nat,
                    staggerUs: nat)
    requires c < |classes| && classes[c].scale > 1 && k > 0
    ensures var members := Members(sessions, classify, classes[c].name);
            AllCopies(Batch(members, |members|, first, k * staggerUs), sessions, classify, classes, staggerUs)
  {
    var members := Members(sessions, classify, classes[c].name);
    var batch := Batch(members, |members|, first, k * staggerUs);
    MembersAre(sessions, classify, classes[c].name);
    forall x | x in batch ensures exists o, k :: IsCopy(x, sessions, classify, classes, staggerUs, o, k) {
      var i :| 0 <= i < |batch| && batch[i] == x;
      assert members[i] in members;
      CopiedIsCopy(members[i], first + i, k * staggerUs);
      assert IsCopy(x, sessions, classify, classes, staggerUs, members[i], k);
    }
  }

  // What the second pass adds behind `base` is copies.
  ghost predicate Extends(q: Progress, base: seq<Session>, sessions: seq<Session>, classify: Session -> nat,
                          classes: seq<Class>, staggerUs: nat)
  {
    base <= q.result && AllCopies(q.result[|base|..], sessions, classify, classes, staggerUs)
  }

  lemma ExtendsMore(q: Progress, r: Progress, base: seq<Session>, more: seq<Session>, sessions: seq<Session>,
                    classify: Session -> nat, classes: seq<Class>, staggerUs: nat)
    requires Extends(q, base, sessions, classify, classes, staggerUs) && r.result == q.result + more
    requires AllCopies(more, sessions, classify, classes, staggerUs)
    ensures Extends(r, base, sessions, classify, classes, staggerUs)
  {
    assert r.result[|base|..] == q.result[|base|..] + more;
  }

  lemma {:induction false} ClassExtends(p: Progress, base: seq<Session>, sessions: seq<Session>,
                                        classify: Session -> nat, classes: seq<Class>, c: nat, times: nat,
                                        staggerUs: nat)
    requires c < |classes| && (times > 0 ==> classes[c].scale > 1)
    requires Extends(p, base, sessions, classify, classes, staggerUs)
    ensures Extends(AddCopies(p, Members(sessions, classify, classes[c].name), times, staggerUs), base, sessions,
                    classify, classes, staggerUs)
  {
    hide Extends, AllCopies;
    if times == 0 {
    } else {
      var members := Members(sessions, classify, classes[c].name);
      var before := AddCopies(p, members, times - 1, staggerUs);
      ClassExtends(p, base, sessions, classify, classes, c, times - 1, staggerUs);
      AddCopiesIs(p, members, times, staggerUs);
      BatchCopies(sessions, classify, classes, c, before.nextId, p.copies + times, staggerUs);
      ExtendsMore(before, AddCopies(p, members, times, staggerUs), base,
                  Batch(members, |members|, before.nextId, (p.copies + times) * staggerUs), sessions, classify,
                  classes, staggerUs);
    }
  }

  lemma {:induction false} ClassesExtend(p: Progress, base: seq<Session>, sessions: seq<Session>,
                                         classify: Session -> nat, classes: seq<Class>, n: nat, staggerUs: nat)
    requires n <= |classes| && Extends(p, base, sessions, classify, classes, staggerUs)
    ensures Extends(AddClasses(p, sessions, classify, classes, n, staggerUs), base, sessions, classify, classes,
                    staggerUs)
  {
    hide Extends;
    if n == 0 {
    } else {
      ClassesExtend(p, base, sessions, classify, classes, n - 1, staggerUs);
      ClassExtends(AddClasses(p, sessions, classify, classes, n - 1, staggerUs), base, sessions, classify, classes,
                   n - 1, Extra(classes[n - 1]), staggerUs);
    }
  }

  // ---- how many there are ----

  // The sum of the factors, weighted by the sizes of the first n classes.
  function Total(sessions: seq<Session>, classify: Session -> nat, classes: seq<Class>, n: nat): int
    requires n <= |classes|
  {
    if n == 0 then 0
    else Total(sessions, classify, classes, n - 1)
         + Product(classes[n - 1].scale, |Members(sessions, classify, classes[n - 1].name)|)
  }

  function Product(a: nat, b: nat): nat {
    a * b
  }

  lemma AddedProduct(p: Progress, members: seq<Session>, times: nat, staggerUs: nat)
    ensures |AddCopies(p, members, times, staggerUs).result| == |p.result| + Product(times, |members|)
  {
    AddCopiesIs(p, members, times, staggerUs);
  }

  lemma FactorSplits(class_: Class, m: nat)
    ensures Product(Extra(class_), m) + (if class_.scale == 0 then 0 else m) == Product(class_.scale, m)
  {
    if class_.scale > 0 { assert class_.scale * m == (class_.scale - 1) * m + m; }
  }

  lemma {:induction false} ClassesCount(p: Progress, sessions: seq<Session>, classify: Session -> nat,
                                        classes: seq<Class>, n: nat, staggerUs: nat)
    requires n <= |classes|
    ensures |AddClasses(p, sessions, classify, classes, n, staggerUs).result| + |Kept(sessions, classify, classes, n)|
         == |p.result| + Total(sessions, classify, classes, n)
  {
    if n == 0 {
    } else {
      ClassesCount(p, sessions, classify, classes, n - 1, staggerUs);
      var members := Members(sessions, classify, classes[n - 1].name);
      hide AddCopies, AddCopy, Members, Extra, Product;
      var before := AddClasses(p, sessions, classify, classes, n - 1, staggerUs);
      assert AddClasses(p, sessions, classify, classes, n, staggerUs)
          == AddCopies(before, members, Extra(classes[n - 1]), staggerUs);
      hide AddClasses;
      AddedProduct(before, members, Extra(classes[n - 1]), staggerUs);
      FactorSplits(classes[n - 1], |members|);
    }
  }

  lemma {:induction false} InsertCounts(sessions: seq<Session>, s: Session)
    ensures |Insert(sessions, s)| == |sessions| + 1
  {
    if sessions == [] {
    } else {
      InsertCounts(sessions[..|sessions| - 1], s);
    }
  }

  lemma {:induction false} SortCounts(sessions: seq<Session>)
    ensures |ByFirstOffset(sessions)| == |sessions|
  {
    if sessions == [] {
    } else {
      SortCounts(sessions[..|sessions| - 1]);
      InsertCounts(ByFirstOffset(sessions[..|sessions| - 1]), sessions[|sessions| - 1]);
    }
  }

  // ---- where each copy is ----

  // The numbers of copies, and of copied sessions, of the first n classes.
  function Earlier(classes: seq<Class>, n: nat): nat
    requires n <= |classes|
  {
    if n == 0 then 0 else Earlier(classes, n - 1) + Extra(classes[n - 1])
  }

  function EarlierIds(sessions: seq<Session>, classify: Session -> nat, classes: seq<Class>, n: nat): nat
    requires n <= |classes|
  {
    if n == 0 then 0
    else EarlierIds(sessions, classify, classes, n - 1)
         + Extra(classes[n - 1]) * |Members(sessions, classify, classes[n - 1].name)|
  }

  lemma {:induction false} AddedCounts(p: Progress, members: seq<Session>, times: nat, staggerUs: nat)
    ensures var q := AddCopies(p, members, times, staggerUs);
            q.copies == p.copies + times && q.nextId == p.nextId + times * |members| && p.result <= q.result
  {
    if times == 0 {
    } else {
      var before := AddCopies(p, members, times - 1, staggerUs);
      AddedCounts(p, members, times - 1, staggerUs);
      AddCopyIs(before.(copies := before.copies + 1), members, |members|, staggerUs);
      assert times * |members| == (times - 1) * |members| + |members|;
    }
  }

  // There is a copy of o, under this id and later by this offset.
  ghost predicate HasCopy(sessions: seq<Session>, o: Session, id: nat, offset: nat) {
    exists x :: x in sessions && x.id == id && CopyOf(x, o, offset)
  }

  lemma BatchHas(before: seq<Session>, members: seq<Session>, first: nat, offset: nat, i: nat)
    requires i < |members|
    ensures HasCopy(before + Batch(members, |members|, first, offset), members[i], first + i, offset)
  {
    var batch := Batch(members, |members|, first, offset);
    CopiedIsCopy(members[i], first + i, offset);
    assert batch[i] in batch;
    assert batch[i] in before + batch;
  }

  lemma HasCopyMore(a: seq<Session>, b: seq<Session>, o: Session, id: nat, offset: nat)
    requires HasCopy(a, o, id, offset) && forall x :: x in a ==> x in b
    ensures HasCopy(b, o, id, offset)
  {
  }

  // Copy number j, from zero, of member i, among the sessions that copying a class adds.
  lemma {:induction false} AddedAt(p: Progress, members: seq<Session>, times: nat, staggerUs: nat, j: nat, i: nat)
    requires j < times && i < |members|
    ensures HasCopy(AddCopies(p, members, times, staggerUs).result, members[i], p.nextId + j * |members| + i,
                    (p.copies + j + 1) * staggerUs)
  {
    hide AddCopy, AddCopies, HasCopy, Batch;
    var before := AddCopies(p, members, times - 1, staggerUs);
    AddedCounts(p, members, times - 1, staggerUs);
    AddCopiesIs(p, members, times, staggerUs);
    if j < times - 1 {
      AddedAt(p, members, times - 1, staggerUs, j, i);
      HasCopyMore(before.result, AddCopies(p, members, times, staggerUs).result, members[i],
                  p.nextId + j * |members| + i, (p.copies + j + 1) * staggerUs);
    } else {
      BatchHas(before.result, members, before.nextId, (p.copies + times) * staggerUs, i);
    }
  }

  lemma {:induction false} ClassesCounts(p: Progress, sessions: seq<Session>, classify: Session -> nat,
                                         classes: seq<Class>, n: nat, staggerUs: nat)
    requires n <= |classes|
    ensures var q := AddClasses(p, sessions, classify, classes, n, staggerUs);
            q.copies == p.copies + Earlier(classes, n)
            && q.nextId == p.nextId + EarlierIds(sessions, classify, classes, n)
  {
    hide Members, AddCopies;
    if n == 0 {
    } else {
      ClassesCounts(p, sessions, classify, classes, n - 1, staggerUs);
      AddedCounts(AddClasses(p, sessions, classify, classes, n - 1, staggerUs),
                  Members(sessions, classify, classes[n - 1].name), Extra(classes[n - 1]), staggerUs);
    }
  }

  lemma {:induction false} ClassesGrow(p: Progress, sessions: seq<Session>, classify: Session -> nat,
                                       classes: seq<Class>, n: nat, m: nat, staggerUs: nat)
    requires n <= m <= |classes|
    ensures AddClasses(p, sessions, classify, classes, n, staggerUs).result
         <= AddClasses(p, sessions, classify, classes, m, staggerUs).result
  {
    hide Members, AddCopies;
    if n < m {
      ClassesGrow(p, sessions, classify, classes, n, m - 1, staggerUs);
      AddedCounts(AddClasses(p, sessions, classify, classes, m - 1, staggerUs),
                  Members(sessions, classify, classes[m - 1].name), Extra(classes[m - 1]), staggerUs);
    }
  }

  // The first id for copies of class c: behind the largest original id and the copies of the classes before.
  function FreeId(sessions: seq<Session>, classify: Session -> nat, classes: seq<Class>, c: nat): nat
    requires c <= |classes|
  {
    MaxId(sessions) + 1 + EarlierIds(sessions, classify, classes, c)
  }

  /** Copy number j, from zero, of the i-th session of class c is in the result: its stagger counts all copies
      made before it, and the copies' ids go up from the largest id there was. */
  lemma CopyIsThere(sessions: seq<Session>, classify: Session -> nat, classes: seq<Class>, staggerMs: nat, c: nat,
                    members: seq<Session>, j: nat, i: nat, id: nat, offset: nat)
    requires c < |classes| && members == Members(sessions, classify, classes[c].name)
    requires j + 1 < classes[c].scale && i < |members|
    requires id == FreeId(sessions, classify, classes, c) + j * |members| + i
    requires offset == (Earlier(classes, c) + j + 1) * (staggerMs * 1000)
    ensures HasCopy(ScaledByClass(sessions, classify, classes, staggerMs), members[i], id, offset)
  {
    hide AddCopies, HasCopy, Members, Earlier, EarlierIds, MaxId, Kept;
    var staggerUs := staggerMs * 1000;
    var p := Progress(Kept(sessions, classify, classes, |classes|), MaxId(sessions) + 1, 0);
    var q := AddClasses(p, sessions, classify, classes, c, staggerUs);
    ClassesCounts(p, sessions, classify, classes, c, staggerUs);
    AddedAt(q, members, Extra(classes[c]), staggerUs, j, i);
    ClassesGrow(p, sessions, classify, classes, c + 1, |classes|, staggerUs);
    var all := AddClasses(p, sessions, classify, classes, |classes|, staggerUs).result;
    var next := AddClasses(p, sessions, classify, classes, c + 1, staggerUs);
    assert next == AddCopies(q, members, Extra(classes[c]), staggerUs);
    hide AddClasses;
    SortKeeps(all);
    HasCopyMore(next.result, ByFirstOffset(all), members[i], id, offset);
  }

  // ---- the order of the result ----

  predicate Sorted(sessions: seq<Session>) {
    forall i, j :: 0 <= i < j < |sessions| ==> FirstOffset(sessions[i]) <= FirstOffset(sessions[j])
  }

  // The sessions that start at t, in order.
  function StartingAt(sessions: seq<Session>, t: nat): seq<Session> {
    if sessions == [] then []
    else
      var n := |sessions| - 1;
      StartingAt(sessions[..n], t) + if FirstOffset(sessions[n]) == t then [sessions[n]] else []
  }

  lemma {:induction false} InsertAdds(sessions: seq<Session>, s: Session)
    ensures multiset(Insert(sessions, s)) == multiset(sessions) + multiset{s}
  {
    if sessions != [] && FirstOffset(sessions[|sessions| - 1]) > FirstOffset(s) {
      InsertAdds(sessions[..|sessions| - 1], s);
      assert sessions == sessions[..|sessions| - 1] + [sessions[|sessions| - 1]];
    }
  }

  lemma {:induction false} InsertSorts(sessions: seq<Session>, s: Session)
    requires Sorted(sessions)
    ensures Sorted(Insert(sessions, s))
    ensures forall x :: x in Insert(sessions, s) ==> x == s || x in sessions
  {
    if sessions != [] && FirstOffset(sessions[|sessions| - 1]) > FirstOffset(s) {
      var init, last := sessions[..|sessions| - 1], sessions[|sessions| - 1];
      var r := Insert(init, s);
      InsertSorts(init, s);
      assert sessions == init + [last];
      forall i | 0 <= i < |r| ensures FirstOffset(r[i]) <= FirstOffset(last) {
        assert r[i] in r;
      }
    }
  }

  function AtStart(s: Session, t: nat): seq<Session> {
    if FirstOffset(s) == t then [s] else []
  }

  lemma Trade(a: seq<Session>, s: Session, last: Session, t: nat)
    requires FirstOffset(s) != FirstOffset(last)
    ensures a + AtStart(s, t) + AtStart(last, t) == a + AtStart(last, t) + AtStart(s, t)
  {
  }

  lemma StartingNext(sessions: seq<Session>, s: Session, t: nat)
    ensures StartingAt(sessions + [s], t) == StartingAt(sessions, t) + AtStart(s, t)
  {
    assert (sessions + [s])[..|sessions|] == sessions;
  }

  lemma {:induction false} InsertStable(sessions: seq<Session>, s: Session, t: nat)
    ensures StartingAt(Insert(sessions, s), t) == StartingAt(sessions + [s], t)
  {
    if sessions == [] {
      assert [] + [s] == [s];
    } else if FirstOffset(sessions[|sessions| - 1]) > FirstOffset(s) {
      var init, last := sessions[..|sessions| - 1], sessions[|sessions| - 1];
      InsertStable(init, s, t);
      assert sessions == init + [last];
      assert Insert(sessions, s) == Insert(init, s) + [last];
      hide Insert, StartingAt, AtStart;
      StartingNext(Insert(init, s), last, t);
      StartingNext(init, s, t);
      StartingNext(init, last, t);
      StartingNext(sessions, s, t);
      Trade(StartingAt(init, t), s, last, t);
    }
  }

  lemma {:induction false} SortSorts(sessions: seq<Session>)
    ensures Sorted(ByFirstOffset(sessions))
  {
    if sessions == [] {
    } else {
      hide Insert;
      SortSorts(sessions[..|sessions| - 1]);
      InsertSorts(ByFirstOffset(sessions[..|sessions| - 1]), sessions[|sessions| - 1]);
    }
  }

  lemma SortedNext(init: seq<Session>, last: Session)
    ensures ByFirstOffset(init + [last]) == Insert(ByFirstOffset(init), last)
  {
    assert (init + [last])[..|init|] == init;
  }

  lemma {:induction false} SortAdds(sessions: seq<Session>)
    ensures multiset(ByFirstOffset(sessions)) == multiset(sessions)
  {
    if sessions == [] {
    } else {
      var init, last := sessions[..|sessions| - 1], sessions[|sessions| - 1];
      SortAdds(init);
      SortedNext(init, last);
      hide ByFirstOffset, Insert;
      InsertAdds(ByFirstOffset(init), last);
      assert sessions == init + [last];
    }
  }

  lemma {:induction false} SortIsStable(sessions: seq<Session>, t: nat)
    ensures StartingAt(ByFirstOffset(sessions), t) == StartingAt(sessions, t)
  {
    if sessions == [] {
    } else {
      var init, last := sessions[..|sessions| - 1], sessions[|sessions| - 1];
      SortIsStable(init, t);
      StableNext(init, last, t);
      assert sessions == init + [last];
    }
  }

  lemma StableNext(init: seq<Session>, last: Session, t: nat)
    requires StartingAt(ByFirstOffset(init), t) == StartingAt(init, t)
    ensures StartingAt(ByFirstOffset(init + [last]), t) == StartingAt(init + [last], t)
  {
    hide ByFirstOffset, Insert, StartingAt, AtStart, FirstOffset;
    SortedNext(init, last);
    InsertStable(ByFirstOffset(init), last, t);
    StartingNext(ByFirstOffset(init), last, t);
    StartingNext(init, last, t);
  }

  /** The result is sorted by the offset of the first query, sessions without queries first; sessions that start
      together stay in their order, and none is lost or added. */
  lemma SortsByFirstOffset(sessions: seq<Session>, t: nat)
    ensures Sorted(ByFirstOffset(sessions)) && multiset(ByFirstOffset(sessions)) == multiset(sessions)
    ensures StartingAt(ByFirstOffset(sessions), t) == StartingAt(sessions, t)
  {
    SortSorts(sessions);
    SortAdds(sessions);
    SortIsStable(sessions, t);
  }

  lemma {:induction false} KeptAre(sessions: seq<Session>, classify: Session -> nat, classes: seq<Class>, n: nat,
                                   x: Session)
    requires n <= |classes|
    ensures x in Kept(sessions, classify, classes, n)
       <==> x in sessions && exists c :: 0 <= c < n && classes[c].name == classify(x) && classes[c].scale > 0
  {
    if n == 0 {
    } else {
      KeptAre(sessions, classify, classes, n - 1, x);
      MembersAre(sessions, classify, classes[n - 1].name);
      if c :| 0 <= c < n - 1 && classes[c].name == classify(x) && classes[c].scale > 0 { assert c < n; }
    }
  }

  // The session is one of the originals, of a class that is not left out.
  ghost predicate IsOriginal(x: Session, sessions: seq<Session>, classify: Session -> nat, classes: seq<Class>) {
    x in sessions && exists c :: 0 <= c < |classes| && classes[c].name == classify(x) && classes[c].scale > 0
  }

  lemma KeptIff(sessions: seq<Session>, classify: Session -> nat, classes: seq<Class>, x: Session)
    ensures x in Kept(sessions, classify, classes, |classes|) <==> IsOriginal(x, sessions, classify, classes)
  {
    KeptAre(sessions, classify, classes, |classes|, x);
  }

  lemma NothingAdded(p: Progress, sessions: seq<Session>, classify: Session -> nat, classes: seq<Class>, staggerUs: nat)
    ensures Extends(p, p.result, sessions, classify, classes, staggerUs)
  {
  }

  /** Scaling by class gives as many sessions as the factors say: the originals of the classes whose factor is not
      zero, unchanged, and copies of originals with one offset on all their queries; in the order in which they
      start. */
  lemma ByClassIsOriginalsAndCopies(sessions: seq<Session>, classify: Session -> nat, classes: seq<Class>,
                                    staggerMs: nat)
    ensures |ScaledByClass(sessions, classify, classes, staggerMs)| == Total(sessions, classify, classes, |classes|)
    ensures forall x :: x in ScaledByClass(sessions, classify, classes, staggerMs) ==>
              || IsOriginal(x, sessions, classify, classes)
              || exists o, k :: IsCopy(x, sessions, classify, classes, staggerMs * 1000, o, k)
    ensures forall x :: IsOriginal(x, sessions, classify, classes) ==>
              x in ScaledByClass(sessions, classify, classes, staggerMs)
    ensures Sorted(ScaledByClass(sessions, classify, classes, staggerMs))
  {
    hide Members, Originals, IsCopy, Sorted, Kept, AddClasses, MaxId, IsOriginal, Extends, ByFirstOffset, Total;
    forall x ensures x in Kept(sessions, classify, classes, |classes|) <==> IsOriginal(x, sessions, classify, classes) {
      KeptIff(sessions, classify, classes, x);
    }
    var kept, staggerUs := Kept(sessions, classify, classes, |classes|), staggerMs * 1000;
    var p := Progress(kept, MaxId(sessions) + 1, 0);
    var q := AddClasses(p, sessions, classify, classes, |classes|, staggerUs);
    ClassesCount(p, sessions, classify, classes, |classes|, staggerUs);
    SortCounts(q.result);
    SortKeeps(q.result);
    SortsByFirstOffset(q.result, 0);
    NothingAdded(p, sessions, classify, classes, staggerUs);
    ClassesExtend(p, kept, sessions, classify, classes, |classes|, staggerUs);
    KeptOrCopied(q, kept, sessions, classify, classes, staggerUs);
  }

  lemma KeptOrCopied(q: Progress, kept: seq<Session>, sessions: seq<Session>, classify: Session -> nat,
                     classes: seq<Class>, staggerUs: nat)
    requires Extends(q, kept, sessions, classify, classes, staggerUs)
    ensures forall x :: x in kept ==> x in q.result
    ensures forall x :: x in q.result ==>
              x in kept || exists o, k :: IsCopy(x, sessions, classify, classes, staggerUs, o, k)
  {
    hide IsCopy;
    assert q.result == kept + q.result[|kept|..];
  }

  /** Scaling by class keeps ids apart, whatever the order in which the classes come up: the result's ids
      differ exactly if those of the sessions that are kept do, and so whenever all original ids differ. */
  lemma ByClassDistinct(sessions: seq<Session>, classify: Session -> nat, classes: seq<Class>, staggerMs: nat)
    requires EachOnce(classes)
    ensures Distinct(ScaledByClass(sessions, classify, classes, staggerMs))
       <==> Distinct(Kept(sessions, classify, classes, |classes|))
    ensures Distinct(sessions) ==> Distinct(ScaledByClass(sessions, classify, classes, staggerMs))
  {
    var p := Progress(Kept(sessions, classify, classes, |classes|), MaxId(sessions) + 1, 0);
    KeptBelow(sessions, classify, classes);
    AddedDistinct(p, sessions, classify, classes, staggerMs * 1000);
    SortKeeps(AddClasses(p, sessions, classify, classes, |classes|, staggerMs * 1000).result);
    if Distinct(sessions) { KeptDistinct(sessions, classify, classes, |classes|); }
  }
}
