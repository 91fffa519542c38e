/** The MRU tracker: bundle identifiers, most recently used first
    (main.swift, class `MRU`). */
module Recency {
  import opened Apps

  /** Move-to-front: every earlier occurrence of `id` removed, `id` inserted
      at index 0. */
  function Push(s: seq<string>, id: string): (r: seq<string>)
    ensures |r| >= 1 && r[0] == id && id !in r[1..]
  {
    [id] + Without(s, id)
  }

  /** What `MRU.push(app)` does to the list: nothing for an app without a
      bundle identifier, move-to-front otherwise. */
  function PushApp(s: seq<string>, app: RunningApp): (r: seq<string>)
    ensures app.bundleId.None? ==> r == s
    ensures app.bundleId.Some? ==> |r| >= 1 && r[0] == app.bundleId.value
  {
    match app.bundleId
    case None => s
    case Some(id) => Push(s, id)
  }

  /** Moves `front`, when it is present, from its first index to index 0. */
  function PinFront(s: seq<string>, front: Option<string>): (r: seq<string>)
    ensures |r| == |s|
    ensures front.Some? && front.value in s ==> r[0] == front.value
    ensures front.None? || front.value !in s ==> r == s
  {
    if front.Some? && front.value in s then MoveToFront(s, FirstIndex(s, front.value)) else s
  }

  /** The list `seedInOrder(apps)` leaves behind when the frontmost app's
      bundle identifier is `front`: the non-nil bundle identifiers of `apps`
      by first occurrence, with `front` pinned to index 0. It does not
      depend on the previous contents of the list. */
  function SeedList(apps: seq<RunningApp>, front: Option<string>): (r: seq<string>)
    ensures |r| <= |apps|
  {
    PinFront(DedupFirst(BundleIds(apps)), front)
  }

  /** After `push(id)` the id sits at index 0 exactly once, and removing it
      gives back the old list with `id` removed: the other ids keep their
      relative order. */
  lemma PushMovesToFront(s: seq<string>, id: string)
    ensures |Push(s, id)| >= 1 && Push(s, id)[0] == id
    ensures multiset(Push(s, id))[id] == 1
    ensures Without(Push(s, id), id) == Without(s, id)
    ensures forall x :: x in Push(s, id) <==> x == id || x in s
  {
    var w := Without(s, id);
    var p := [id] + w;
    assert p[0] == id && p[1..] == w;
    WithoutMembers(s, id);
    WithoutIdempotent(s, id);
    assert Without(p, id) == Without(w, id);
    assert multiset(p) == multiset{id} + multiset(w);
    assert multiset(w)[id] == 0;
  }

  /** Pushing the same id twice is pushing it once. */
  lemma PushIdempotent(s: seq<string>, id: string)
    ensures Push(Push(s, id), id) == Push(s, id)
  {
    var w := Without(s, id);
    var p := [id] + w;
    assert p[0] == id && p[1..] == w;
    assert Without(p, id) == Without(w, id);
    WithoutIdempotent(s, id);
  }

  /** A duplicate-free list stays duplicate-free under `push`. */
  lemma PushKeepsNoDups(s: seq<string>, id: string)
    requires NoDups(s)
    ensures NoDups(Push(s, id))
  {
    WithoutNoDups(s, id);
  }

  /** An app without a bundle identifier leaves the list unchanged; one with
      an identifier is pushed. */
  lemma PushAppIdempotent(s: seq<string>, app: RunningApp)
    ensures app.bundleId.None? ==> PushApp(s, app) == s
    ensures PushApp(PushApp(s, app), app) == PushApp(s, app)
  {
    if app.bundleId.Some? {
      PushIdempotent(s, app.bundleId.value);
    }
  }

  /** Pinning the front id of a duplicate-free list is the same as pushing
      it: the re-pin in `seedInOrder` is a move-to-front. */
  lemma PinFrontIsPush(s: seq<string>, id: string)
    requires NoDups(s) && id in s
    ensures PinFront(s, Some(id)) == Push(s, id)
  {
    WithoutSingle(s, id);
  }

  /** The seeded list holds exactly the non-nil bundle identifiers of the
      apps, each once. The frontmost id, when one of the apps carries it,
      is at index 0, and the other ids follow by first occurrence. */
  lemma SeedListSpec(apps: seq<RunningApp>, front: Option<string>)
    ensures NoDups(SeedList(apps, front))
    ensures forall id :: id in SeedList(apps, front) <==> exists a :: a in apps && a.bundleId == Some(id)
    ensures front.Some? && front.value in BundleIds(apps) ==> SeedList(apps, front)[0] == front.value
    ensures front.Some? && front.value in BundleIds(apps) ==>
      SeedList(apps, front) == [front.value] + Without(DedupFirst(BundleIds(apps)), front.value)
    ensures front.None? || front.value !in BundleIds(apps) ==> SeedList(apps, front) == DedupFirst(BundleIds(apps))
  {
    var d := DedupFirst(BundleIds(apps));
    DedupFirstMembers(BundleIds(apps));
    BundleIdsMembers(apps);
    PinFrontMembers(d, front);
    if front.Some? && front.value in d {
      MoveToFrontNoDups(d, FirstIndex(d, front.value));
      PinFrontIsPush(d, front.value);
    }
  }

  /** Pinning moves an element, so it keeps the elements. */
  lemma PinFrontMembers(s: seq<string>, front: Option<string>)
    ensures forall x :: x in PinFront(s, front) <==> x in s
  {
    if front.Some? && front.value in s {
      MoveToFrontPerm(s, FirstIndex(s, front.value));
    }
  }

  /** The seeded list is a fixed point of both steps of the seed: it is
      already deduplicated and already has `front` pinned. Together with
      `SeedInOrder` ignoring the previous list, seeding twice with the same
      apps and frontmost app gives the list seeding once gives. */
  lemma SeedListFixpoint(apps: seq<RunningApp>, front: Option<string>)
    ensures DedupFirst(SeedList(apps, front)) == SeedList(apps, front)
    ensures PinFront(SeedList(apps, front), front) == SeedList(apps, front)
  {
    var l := SeedList(apps, front);
    SeedListSpec(apps, front);
    DedupFirstOfNoDups(l);
    if front.Some? && front.value in l {
      PinFrontMembers(DedupFirst(BundleIds(apps)), front);
      assert l[0] == front.value;
      FirstIndexUnique(l, front.value, 0);
      assert l[..0] == [];
      assert MoveToFront(l, 0) == l;
    }
  }

  /** One iteration of the loop in `seedInOrder`: the next app's bundle
      identifier is appended exactly when it is new. */
  lemma SeedStep(apps: seq<RunningApp>, i: nat)
    requires i < |apps|
    ensures var d := DedupFirst(BundleIds(apps[..i]));
      DedupFirst(BundleIds(apps[..i + 1])) ==
        if apps[i].bundleId.Some? && apps[i].bundleId.value !in d
        then d + [apps[i].bundleId.value] else d
  {
    var a := apps[i];
    assert apps[..i + 1] == apps[..i] + [a];
    BundleIdsSnoc(apps[..i], a);
    if a.bundleId.Some? {
      DedupFirstSnoc(BundleIds(apps[..i]), a.bundleId.value);
    } else {
      assert BundleIds(apps[..i + 1]) == BundleIds(apps[..i]);
    }
  }

  /** The loop of `seedInOrder` keeps `seen` equal to the elements of the
      list it builds, and the list equal to the ids of the apps so far by
      first occurrence. */
  lemma SeedLoopStep(apps: seq<RunningApp>, i: nat, l: seq<string>, seen: set<string>)
    requires i < |apps|
    requires l == DedupFirst(BundleIds(apps[..i]))
    requires forall x :: x in seen <==> x in l
    ensures apps[i].bundleId.Some? && apps[i].bundleId.value !in seen ==>
      var v := apps[i].bundleId.value;
      l + [v] == DedupFirst(BundleIds(apps[..i + 1])) &&
      forall x :: x in seen + {v} <==> x in l + [v]
    ensures !(apps[i].bundleId.Some? && apps[i].bundleId.value !in seen) ==>
      l == DedupFirst(BundleIds(apps[..i + 1]))
  {
    SeedStep(apps, i);
  }

  /** `PinFront` as `seedInOrder` performs it: `remove(at:)` at the first
      index, then `insert(_, at: 0)`. */
  lemma PinFrontCut(d: seq<string>, front: Option<string>)
    ensures front.Some? && front.value in d ==>
      var idx := FirstIndex(d, front.value);
      PinFront(d, front) == [front.value] + (d[..idx] + d[idx + 1..])
    ensures !(front.Some? && front.value in d) ==> PinFront(d, front) == d
  {
  }

  /** `MRU`: the list of bundle identifiers, most recent first. */
  class MRU {
    var list: seq<string>

    constructor ()
      ensures list == []
    {
      list := [];
    }

    /** `mru.isEmpty` */
    function IsEmpty(): (b: bool)
      reads this
      ensures b <==> list == []
    {
      |list| == 0
    }

    /** `mru.ids`: a snapshot of the list. */
    function Ids(): (r: seq<string>)
      reads this
      ensures r == list
    {
      list
    }

    /** `push(app)`: move-to-front of the app's bundle identifier. */
    method Push(app: RunningApp)
      modifies this
      ensures list == PushApp(old(list), app)
    {
      if app.bundleId.None? {
        return;
      }
      var id := app.bundleId.value;
      list := Without(list, id);
      list := [id] + list;
    }

    /** `seedInOrder(apps)` with the frontmost app's bundle identifier `front`:
        replaces the list by the apps' bundle identifiers, first occurrence
        wins, then moves `front` to index 0 when it is in the list. */
    method SeedInOrder(apps: seq<RunningApp>, front: Option<string>)
      modifies this
      ensures list == SeedList(apps, front)
    {
      var seen: set<string> := {};
      list := [];
      var i := 0;
      while i < |apps|
        invariant 0 <= i <= |apps|
        invariant list == DedupFirst(BundleIds(apps[..i]))
        invariant forall x :: x in seen <==> x in list
      {
        var a := apps[i];
        SeedLoopStep(apps, i, list, seen);
        if a.bundleId.Some? && a.bundleId.value !in seen {
          seen := seen + {a.bundleId.value};
          list := list + [a.bundleId.value];
        }
        i := i + 1;
      }
      assert apps[..i] == apps;
      PinToFront(front);
    }

    /** The last step of `seedInOrder`: `remove(at:)` of `front` at its first
        index, then `insert(_, at: 0)`. */
    method PinToFront(front: Option<string>)
      modifies this
      ensures list == PinFront(old(list), front)
    {
      PinFrontCut(list, front);
      if front.Some? && front.value in list {
        var idx := FirstIndex(list, front.value);
        list := list[..idx] + list[idx + 1..];
        list := [front.value] + list;
      }
    }
  }
}
