/** Values shared by every part of the switcher: the optional type, the
    running-application record, and the sequence helpers the MRU tracker,
    the candidate orderer and the window z-order scan are built from. */
module Apps {

  datatype Option<+T> = None | Some(value: T)

  /** An `NSRunningApplication` as the core sees it: its process id, its
      bundle identifier (absent for some processes), and whether its
      activation policy is `.regular` (a Dock app that can be switched to). */
  datatype RunningApp = RunningApp(pid: int, bundleId: Option<string>, regular: bool)

  predicate NoDups<T(==)>(s: seq<T>) {
    forall i, j :: 0 <= i < j < |s| ==> s[i] != s[j]
  }

  /** The index of the first occurrence of `x` in `s`. */
  function FirstIndex<T(==)>(s: seq<T>, x: T): (i: nat)
    requires x in s
    ensures i < |s| && s[i] == x && x !in s[..i]
  {
    if s[0] == x then 0 else FirstIndex(s[1..], x) + 1
  }

  /** Any index holding `x` with no earlier `x` is the first index. */
  lemma FirstIndexUnique<T>(s: seq<T>, x: T, i: nat)
    requires i < |s| && s[i] == x && x !in s[..i]
    ensures FirstIndex(s, x) == i
  {
  }

  /** Appending an element does not move the first occurrence of anything
      already present. */
  lemma FirstIndexAppend<T>(s: seq<T>, tail: seq<T>, x: T)
    requires x in s
    ensures x in s + tail && FirstIndex(s + tail, x) == FirstIndex(s, x)
  {
    var i := FirstIndex(s, x);
    assert (s + tail)[..i] == s[..i];
    FirstIndexUnique(s + tail, x, i);
  }

  /** `s` with every element kept only at its first occurrence: what a loop
      over `s` that appends an element when a `seen` set does not hold it yet
      produces. */
  function DedupFirst<T(==, !new)>(s: seq<T>): (d: seq<T>)
    ensures NoDups(d) && |d| <= |s|
  {
    if s == [] then []
    else
      var p := DedupFirst(s[..|s| - 1]);
      assert s == s[..|s| - 1] + [s[|s| - 1]];
      if s[|s| - 1] in p then p else p + [s[|s| - 1]]
  }

  /** Deduplicating keeps every element and adds none. */
  lemma {:induction false} DedupFirstMembers<T(!new)>(s: seq<T>)
    ensures forall x :: x in DedupFirst(s) <==> x in s
  {
    if s != [] {
      var p := s[..|s| - 1];
      DedupFirstMembers(p);
      assert s == p + [s[|s| - 1]];
    }
  }

  lemma DedupFirstSnoc<T(!new)>(s: seq<T>, x: T)
    ensures DedupFirst(s + [x]) == if x in s then DedupFirst(s) else DedupFirst(s) + [x]
  {
    assert (s + [x])[..|s|] == s;
    DedupFirstMembers(s);
  }

  /** Deduplicating a sequence leaves the deduplication of any prefix in
      front: later elements can only add to the end. */
  lemma {:induction false} DedupFirstPrefix<T(!new)>(a: seq<T>, b: seq<T>)
    ensures |DedupFirst(a)| <= |DedupFirst(a + b)|
    ensures DedupFirst(a + b)[..|DedupFirst(a)|] == DedupFirst(a)
  {
    if b == [] {
      assert a + b == a;
    } else {
      var b' := b[..|b| - 1];
      var x := b[|b| - 1];
      DedupFirstPrefix(a, b');
      assert a + b == (a + b') + [x];
      DedupFirstSnoc(a + b', x);
    }
  }

  /** A deduplicated sequence is already deduplicated. */
  lemma {:induction false} DedupFirstOfNoDups<T(!new)>(s: seq<T>)
    requires NoDups(s)
    ensures DedupFirst(s) == s
  {
    if s != [] {
      var p := s[..|s| - 1];
      assert NoDups(p);
      DedupFirstOfNoDups(p);
      assert s == p + [s[|s| - 1]];
      DedupFirstSnoc(p, s[|s| - 1]);
    }
  }

  /** The elements of `DedupFirst(s)` appear in the order of their first
      occurrence in `s`. */
  lemma {:induction false} DedupFirstOrder<T(!new)>(s: seq<T>)
    ensures forall i :: 0 <= i < |DedupFirst(s)| ==> DedupFirst(s)[i] in s
    ensures forall i, j :: 0 <= i < j < |DedupFirst(s)| ==>
      FirstIndex(s, DedupFirst(s)[i]) < FirstIndex(s, DedupFirst(s)[j])
  {
    if s != [] {
      var p := s[..|s| - 1];
      var x := s[|s| - 1];
      DedupFirstOrder(p);
      DedupFirstOrderStep(p, x);
      assert s == p + [x];
    }
  }

  /** One appended element keeps the first-occurrence order. */
  lemma DedupFirstOrderStep<T(!new)>(p: seq<T>, x: T)
    requires forall i :: 0 <= i < |DedupFirst(p)| ==> DedupFirst(p)[i] in p
    requires forall i, j :: 0 <= i < j < |DedupFirst(p)| ==>
      FirstIndex(p, DedupFirst(p)[i]) < FirstIndex(p, DedupFirst(p)[j])
    ensures forall i :: 0 <= i < |DedupFirst(p + [x])| ==> DedupFirst(p + [x])[i] in p + [x]
    ensures forall i, j :: 0 <= i < j < |DedupFirst(p + [x])| ==>
      FirstIndex(p + [x], DedupFirst(p + [x])[i]) < FirstIndex(p + [x], DedupFirst(p + [x])[j])
  {
    DedupFirstSnoc(p, x);
    var d := DedupFirst(p + [x]);
    var dp := DedupFirst(p);
    forall i, j | 0 <= i < j < |d|
      ensures FirstIndex(p + [x], d[i]) < FirstIndex(p + [x], d[j])
    {
      if j < |dp| {
        FirstIndexPairAppend(p, x, dp[i], dp[j]);
      } else {
        FirstIndexLastAppend(p, x, dp[i]);
      }
    }
  }

  /** Appending keeps the order of two first occurrences. */
  lemma FirstIndexPairAppend<T>(p: seq<T>, x: T, a: T, b: T)
    requires a in p && b in p && FirstIndex(p, a) < FirstIndex(p, b)
    ensures a in p + [x] && b in p + [x] && FirstIndex(p + [x], a) < FirstIndex(p + [x], b)
  {
    FirstIndexAppend(p, [x], a);
    FirstIndexAppend(p, [x], b);
  }

  /** A new element appended occurs first after everything before it. */
  lemma FirstIndexLastAppend<T>(p: seq<T>, x: T, a: T)
    requires a in p && x !in p
    ensures a in p + [x] && x in p + [x] && FirstIndex(p + [x], a) < FirstIndex(p + [x], x)
  {
    FirstIndexAppend(p, [x], a);
    assert (p + [x])[..|p|] == p;
    FirstIndexUnique(p + [x], x, |p|);
  }

  /** `s` with every occurrence of `x` removed, all else in order: Swift's
      `removeAll { $0 == x }`. */
  function Without<T(==, !new)>(s: seq<T>, x: T): (r: seq<T>)
    ensures x !in r && |r| <= |s|
  {
    if s == [] then []
    else (if s[0] == x then [] else [s[0]]) + Without(s[1..], x)
  }

  /** Removing `x` keeps every other element. */
  lemma {:induction false} WithoutMembers<T(!new)>(s: seq<T>, x: T)
    ensures forall y :: y != x ==> (y in Without(s, x) <==> y in s)
  {
    if s != [] {
      WithoutMembers(s[1..], x);
      assert s == [s[0]] + s[1..];
    }
  }

  lemma {:induction false} WithoutIdempotent<T(!new)>(s: seq<T>, x: T)
    ensures Without(Without(s, x), x) == Without(s, x)
  {
    if s != [] {
      WithoutIdempotent(s[1..], x);
      if s[0] == x {
        assert Without(s, x) == Without(s[1..], x);
      } else {
        assert Without(s, x) == [s[0]] + Without(s[1..], x);
        assert ([s[0]] + Without(s[1..], x))[1..] == Without(s[1..], x);
      }
    }
  }

  lemma {:induction false} WithoutNoDups<T(!new)>(s: seq<T>, x: T)
    requires NoDups(s)
    ensures NoDups(Without(s, x))
  {
    if s != [] {
      assert NoDups(s[1..]);
      WithoutNoDups(s[1..], x);
      if s[0] != x {
        assert s[0] !in s[1..];
        WithoutMembers(s[1..], x);
        assert s[0] !in Without(s[1..], x);
      }
    }
  }

  /** Removing the one occurrence of `x` from a duplicate-free sequence is
      cutting it out at its index. */
  lemma {:induction false} WithoutSingle<T(!new)>(s: seq<T>, x: T)
    requires NoDups(s) && x in s
    ensures Without(s, x) == s[..FirstIndex(s, x)] + s[FirstIndex(s, x) + 1..]
  {
    if s[0] == x {
      assert x !in s[1..];
      WithoutAbsent(s[1..], x);
    } else {
      assert NoDups(s[1..]);
      WithoutSingle(s[1..], x);
      var k := FirstIndex(s[1..], x);
      assert s[..k + 1] == [s[0]] + s[1..][..k];
      assert s[k + 2..] == s[1..][k + 1..];
    }
  }

  lemma {:induction false} WithoutAbsent<T(!new)>(s: seq<T>, x: T)
    requires x !in s
    ensures Without(s, x) == s
  {
    if s != [] {
      WithoutAbsent(s[1..], x);
      assert s == [s[0]] + s[1..];
    }
  }

  /** `s[i]` moved to the front, the rest in order: `remove(at:)` then
      `insert(_, at: 0)`. */
  function MoveToFront<T>(s: seq<T>, i: nat): (r: seq<T>)
    requires i < |s|
    ensures |r| == |s| && r[0] == s[i]
  {
    [s[i]] + s[..i] + s[i + 1..]
  }

  /** Moving an element to the front permutes the sequence, so it keeps
      the elements. */
  lemma MoveToFrontPerm<T>(s: seq<T>, i: nat)
    requires i < |s|
    ensures multiset(MoveToFront(s, i)) == multiset(s)
    ensures forall x :: x in MoveToFront(s, i) <==> x in s
  {
    assert s == s[..i] + [s[i]] + s[i + 1..];
    assert multiset(MoveToFront(s, i)) == multiset(s);
    assert forall x :: x in MoveToFront(s, i) <==> x in multiset(MoveToFront(s, i));
  }

  /** Moving an element to the front keeps a sequence free of duplicates. */
  lemma MoveToFrontNoDups<T>(s: seq<T>, i: nat)
    requires i < |s| && NoDups(s)
    ensures NoDups(MoveToFront(s, i))
  {
    var r := MoveToFront(s, i);
    forall a, b | 0 <= a < b < |r|
      ensures r[a] != r[b]
    {
      var ia := if a == 0 then i else if a <= i then a - 1 else a;
      var ib := if b == 0 then i else if b <= i then b - 1 else b;
      assert r[a] == s[ia];
      assert r[b] == s[ib];
    }
  }

  /** The non-nil bundle identifiers of `apps`, in order. */
  function BundleIds(apps: seq<RunningApp>): (ids: seq<string>)
    ensures |ids| <= |apps|
  {
    if apps == [] then []
    else
      var last := apps[|apps| - 1];
      assert apps == apps[..|apps| - 1] + [last];
      BundleIds(apps[..|apps| - 1]) + (if last.bundleId.Some? then [last.bundleId.value] else [])
  }

  /** Every id of `BundleIds(apps)` is the bundle identifier of one of the
      apps, and every app's bundle identifier is among them. */
  lemma {:induction false} BundleIdsMembers(apps: seq<RunningApp>)
    ensures forall id :: id in BundleIds(apps) <==> exists a :: a in apps && a.bundleId == Some(id)
  {
    if apps != [] {
      var p := apps[..|apps| - 1];
      var last := apps[|apps| - 1];
      BundleIdsMembers(p);
      assert apps == p + [last];
    }
  }

  lemma BundleIdsSnoc(apps: seq<RunningApp>, a: RunningApp)
    ensures BundleIds(apps + [a]) ==
      BundleIds(apps) + (if a.bundleId.Some? then [a.bundleId.value] else [])
  {
    assert (apps + [a])[..|apps|] == apps;
  }

  /** The running apps whose activation policy is `.regular`, in order. */
  function Regular(apps: seq<RunningApp>): (r: seq<RunningApp>)
    ensures |r| <= |apps|
  {
    if apps == [] then []
    else
      var last := apps[|apps| - 1];
      Regular(apps[..|apps| - 1]) + (if last.regular then [last] else [])
  }

  /** `Regular` keeps exactly the regular apps. */
  lemma {:induction false} RegularMembers(apps: seq<RunningApp>)
    ensures forall a :: a in Regular(apps) <==> a in apps && a.regular
  {
    if apps != [] {
      var p := apps[..|apps| - 1];
      RegularMembers(p);
      assert apps == p + [apps[|apps| - 1]];
    }
  }

  /** The first app whose bundle identifier is `id`: Swift's
      `first(where: { $0.bundleIdentifier == id })`. */
  function FirstWithId(apps: seq<RunningApp>, id: string): (r: Option<RunningApp>)
    ensures r.Some? <==> id in BundleIds(apps)
    ensures r.Some? ==> r.value in apps && r.value.bundleId == Some(id)
  {
    BundleIdsMembers(apps);
    if apps == [] then None
    else if apps[0].bundleId == Some(id) then Some(apps[0])
    else
      assert apps == [apps[0]] + apps[1..];
      BundleIdsMembers(apps[1..]);
      FirstWithId(apps[1..], id)
  }

  /** The app `FirstWithId` returns is the first one carrying `id`: no
      app before it does. */
  lemma {:induction false} FirstWithIdIsFirst(apps: seq<RunningApp>, id: string)
    ensures FirstWithId(apps, id).Some? ==>
      exists k :: 0 <= k < |apps| && apps[k] == FirstWithId(apps, id).value &&
        forall j :: 0 <= j < k ==> apps[j].bundleId != Some(id)
  {
    if apps != [] && apps[0].bundleId != Some(id) {
      FirstWithIdIsFirst(apps[1..], id);
      if FirstWithId(apps, id).Some? {
        var k' :| 0 <= k' < |apps[1..]| && apps[1..][k'] == FirstWithId(apps, id).value &&
          forall j :: 0 <= j < k' ==> apps[1..][j].bundleId != Some(id);
        assert apps[k' + 1] == FirstWithId(apps, id).value;
        assert forall j :: 0 < j < k' + 1 ==> apps[j] == apps[1..][j - 1];
      }
    } else if apps != [] {
      assert apps[0] == FirstWithId(apps, id).value;
    }
  }

  /** The first app whose process id is `pid`; with unique pids this is
      the dictionary lookup `byPID[pid]`. */
  function ByPid(apps: seq<RunningApp>, pid: int): (r: Option<RunningApp>)
    ensures r.Some? ==> r.value in apps && r.value.pid == pid
  {
    if apps == [] then None
    else if apps[0].pid == pid then Some(apps[0])
    else ByPid(apps[1..], pid)
  }

  /** `ByPid` finds an app exactly when one has the pid. */
  lemma {:induction false} ByPidNone(apps: seq<RunningApp>, pid: int)
    ensures ByPid(apps, pid).None? <==> forall a :: a in apps ==> a.pid != pid
  {
    if apps != [] {
      ByPidNone(apps[1..], pid);
      assert apps == [apps[0]] + apps[1..];
    }
  }

  /** The index of the first app whose process id is `pid`:
      `firstIndex(where: { $0.processIdentifier == pid })`. */
  function IndexOfPid(apps: seq<RunningApp>, pid: int): (r: Option<nat>)
    ensures r.Some? ==> r.value < |apps| && apps[r.value].pid == pid
    ensures r.Some? ==> forall k :: 0 <= k < r.value ==> apps[k].pid != pid
  {
    if apps == [] then None
    else if apps[0].pid == pid then Some(0)
    else match IndexOfPid(apps[1..], pid)
      case None => None
      case Some(k) => Some(k + 1)
  }

  /** `IndexOfPid` finds an index exactly when an app has the pid. */
  lemma {:induction false} IndexOfPidNone(apps: seq<RunningApp>, pid: int)
    ensures IndexOfPid(apps, pid).None? <==> forall i :: 0 <= i < |apps| ==> apps[i].pid != pid
  {
    if apps != [] {
      IndexOfPidNone(apps[1..], pid);
      assert forall i :: 0 < i < |apps| ==> apps[i] == apps[1..][i - 1];
    }
  }

  /** No two running apps share a process id (the precondition of
      `Dictionary(uniqueKeysWithValues:)`). */
  predicate UniquePids(apps: seq<RunningApp>) {
    forall i, j :: 0 <= i < j < |apps| ==> apps[i].pid != apps[j].pid
  }
}
