/** Candidate ordering and MRU seeding (main.swift, `orderedAppsForOverlay`,
    `zOrderedRegularApps`, `seedMRUIfNeeded`). The running-application list,
    the on-screen window list and the frontmost application are inputs. */
module Ordering {
  import opened Apps
  import opened Recency

  /** The ids of `ids` that some app of `all` carries, in the order of `ids`. */
  function RunningIds(ids: seq<string>, all: seq<RunningApp>): (r: seq<string>)
    ensures |r| <= |ids|
  {
    if ids == [] then []
    else
      var last := ids[|ids| - 1];
      assert ids == ids[..|ids| - 1] + [last];
      RunningIds(ids[..|ids| - 1], all) + (if last in BundleIds(all) then [last] else [])
  }

  /** An id is kept exactly when it is in `ids` and some app carries it. */
  lemma {:induction false} RunningIdsMembers(ids: seq<string>, all: seq<RunningApp>)
    ensures forall id :: id in RunningIds(ids, all) <==> id in ids && id in BundleIds(all)
  {
    if ids != [] {
      var p := ids[..|ids| - 1];
      RunningIdsMembers(p, all);
      assert ids == p + [ids[|ids| - 1]];
    }
  }

  lemma {:induction false} RunningIdsNoDups(ids: seq<string>, all: seq<RunningApp>)
    requires NoDups(ids)
    ensures NoDups(RunningIds(ids, all))
  {
    if ids != [] {
      var p := ids[..|ids| - 1];
      assert NoDups(p);
      RunningIdsNoDups(p, all);
      RunningIdsMembers(p, all);
      assert ids == p + [ids[|ids| - 1]];
      assert ids[|ids| - 1] !in p;
    }
  }

  /** The bundle identifiers of the overlay's candidates, in order: the
      running MRU ids first, then the ids of the remaining regular apps,
      each id once (one `seen` set is shared by both loops). */
  function CandidateIds(mru: seq<string>, running: seq<RunningApp>): (r: seq<string>)
    ensures NoDups(r)
  {
    var all := Regular(running);
    DedupFirst(RunningIds(mru, all) + BundleIds(all))
  }

  /** Each id of `ids` looked up in `all` by `first(where:)`, in order; ids
      no app carries are dropped. */
  function Lookup(all: seq<RunningApp>, ids: seq<string>): (r: seq<RunningApp>)
    ensures |r| <= |ids|
    ensures forall k :: 0 <= k < |r| ==> r[k] in all
  {
    if ids == [] then []
    else
      var init := Lookup(all, ids[..|ids| - 1]);
      match FirstWithId(all, ids[|ids| - 1])
      case None => init
      case Some(a) => init + [a]
  }

  lemma LookupSnoc(all: seq<RunningApp>, ids: seq<string>, id: string)
    ensures Lookup(all, ids + [id]) ==
      match FirstWithId(all, id) case None => Lookup(all, ids) case Some(a) => Lookup(all, ids) + [a]
  {
    assert (ids + [id])[..|ids|] == ids;
  }

  lemma {:induction false} LookupAll(all: seq<RunningApp>, ids: seq<string>)
    requires forall id :: id in ids ==> id in BundleIds(all)
    ensures |Lookup(all, ids)| == |ids|
    ensures forall k :: 0 <= k < |ids| ==> FirstWithId(all, ids[k]) == Some(Lookup(all, ids)[k])
  {
    if ids != [] {
      var p := ids[..|ids| - 1];
      assert forall id :: id in p ==> id in ids;
      LookupAll(all, p);
      assert forall k :: 0 <= k < |p| ==> ids[k] == p[k];
    }
  }

  /** The list `orderedAppsForOverlay()` returns for the MRU ids `mru` and
      the running applications `running`. */
  function Candidates(mru: seq<string>, running: seq<RunningApp>): (r: seq<RunningApp>)
    ensures forall k :: 0 <= k < |r| ==> r[k] in Regular(running)
  {
    Lookup(Regular(running), CandidateIds(mru, running))
  }

  /** Every candidate id is the bundle identifier of a regular running app. */
  lemma CandidateIdsInAll(mru: seq<string>, running: seq<RunningApp>)
    ensures forall id :: id in CandidateIds(mru, running) ==> id in BundleIds(Regular(running))
  {
    var all := Regular(running);
    DedupFirstMembers(RunningIds(mru, all) + BundleIds(all));
    RunningIdsMembers(mru, all);
  }

  /** Candidate `k` is the first regular app carrying candidate id `k`, so
      it is a regular running app with that id. */
  lemma CandidatesAt(mru: seq<string>, running: seq<RunningApp>)
    ensures |Candidates(mru, running)| == |CandidateIds(mru, running)|
    ensures forall k :: 0 <= k < |Candidates(mru, running)| ==>
      var a := Candidates(mru, running)[k];
      a in running && a.regular && a.bundleId == Some(CandidateIds(mru, running)[k])
  {
    var all := Regular(running);
    var d := CandidateIds(mru, running);
    var r := Candidates(mru, running);
    CandidateIdsInAll(mru, running);
    LookupAll(all, d);
    RegularMembers(running);
    forall k | 0 <= k < |r|
      ensures r[k] in running && r[k].regular && r[k].bundleId == Some(d[k])
    {
      assert FirstWithId(all, d[k]) == Some(r[k]);
    }
  }

  /** A regular running app with a bundle identifier has a candidate
      carrying that identifier. */
  lemma CandidateFor(mru: seq<string>, running: seq<RunningApp>, a: RunningApp)
    requires a in running && a.regular && a.bundleId.Some?
    ensures exists k :: 0 <= k < |Candidates(mru, running)| && Candidates(mru, running)[k].bundleId == a.bundleId
  {
    var all := Regular(running);
    var d := CandidateIds(mru, running);
    RegularMembers(running);
    assert a in all;
    BundleIdsMembers(all);
    DedupFirstMembers(RunningIds(mru, all) + BundleIds(all));
    var id := a.bundleId.value;
    assert id in d;
    CandidatesAt(mru, running);
    var k := FirstIndex(d, id);
    assert Candidates(mru, running)[k].bundleId == Some(id);
  }

  /** The running MRU ids, deduplicated, are the ids of the first
      candidates, in MRU order; for a duplicate-free MRU list nothing is
      dropped by the deduplication. */
  lemma CandidatesMruFirst(mru: seq<string>, running: seq<RunningApp>)
    ensures var m := DedupFirst(RunningIds(mru, Regular(running)));
      |m| <= |Candidates(mru, running)| &&
      forall k :: 0 <= k < |m| ==> Candidates(mru, running)[k].bundleId == Some(m[k])
    ensures NoDups(mru) ==> DedupFirst(RunningIds(mru, Regular(running))) == RunningIds(mru, Regular(running))
  {
    var all := Regular(running);
    var rIds := RunningIds(mru, all);
    var d := CandidateIds(mru, running);
    var r := Candidates(mru, running);
    CandidatesAt(mru, running);
    DedupFirstPrefix(rIds, BundleIds(all));
    var m := DedupFirst(rIds);
    forall k | 0 <= k < |m|
      ensures r[k].bundleId == Some(m[k])
    {
      assert d[..|m|][k] == m[k];
    }
    if NoDups(mru) {
      RunningIdsNoDups(mru, all);
      DedupFirstOfNoDups(rIds);
    }
  }

  /** No two candidates share a bundle identifier. */
  lemma CandidatesDistinct(mru: seq<string>, running: seq<RunningApp>)
    ensures forall i, j :: 0 <= i < j < |Candidates(mru, running)| ==>
      Candidates(mru, running)[i].bundleId != Candidates(mru, running)[j].bundleId
  {
    var r := Candidates(mru, running);
    var d := CandidateIds(mru, running);
    CandidatesAt(mru, running);
    forall i, j | 0 <= i < j < |r|
      ensures r[i].bundleId != r[j].bundleId
    {
      assert d[i] != d[j];
    }
  }

  /** Every regular running app with a bundle identifier is represented
      among the candidates by an app with that identifier. */
  lemma CandidatesComplete(mru: seq<string>, running: seq<RunningApp>)
    ensures forall a :: a in running && a.regular && a.bundleId.Some? ==>
      exists k :: 0 <= k < |Candidates(mru, running)| && Candidates(mru, running)[k].bundleId == a.bundleId
  {
    forall a | a in running && a.regular && a.bundleId.Some?
      ensures exists k :: 0 <= k < |Candidates(mru, running)| && Candidates(mru, running)[k].bundleId == a.bundleId
    {
      CandidateFor(mru, running, a);
    }
  }

  /** The first app of `all` with bundle identifier `id` is `all[j]` when
      no app before `j` carries `id`. */
  lemma {:induction false} FirstWithIdAt(all: seq<RunningApp>, j: nat, id: string)
    requires j < |all| && all[j].bundleId == Some(id) && id !in BundleIds(all[..j])
    ensures FirstWithId(all, id) == Some(all[j])
  {
    BundleIdsMembers(all[..j]);
    if j > 0 {
      assert all[0] in all[..j];
      assert all[1..][..j - 1] == all[1..j];
      assert forall a :: a in all[1..j] ==> a in all[..j];
      BundleIdsMembers(all[1..j]);
      FirstWithIdAt(all[1..], j - 1, id);
    }
  }

  lemma RunningIdsSnoc(ids: seq<string>, x: string, all: seq<RunningApp>)
    ensures RunningIds(ids + [x], all) == RunningIds(ids, all) + (if x in BundleIds(all) then [x] else [])
  {
    assert (ids + [x])[..|ids|] == ids;
  }

  /** One turn of the MRU loop of `orderedAppsForOverlay`: an id that
      some regular app carries and that was not seen yet has its app
      appended and is marked seen; the loop invariant then holds for the
      next index. */
  lemma MruLoopStep(ids: seq<string>, i: nat, all: seq<RunningApp>,
                    result0: seq<RunningApp>, seen0: set<string>,
                    result: seq<RunningApp>, seen: set<string>)
    requires i < |ids|
    requires result0 == Lookup(all, DedupFirst(RunningIds(ids[..i], all)))
    requires forall x :: x in seen0 <==> x in RunningIds(ids[..i], all)
    requires if FirstWithId(all, ids[i]).Some? && ids[i] !in seen0
      then result == result0 + [FirstWithId(all, ids[i]).value] && seen == seen0 + {ids[i]}
      else result == result0 && seen == seen0
    ensures result == Lookup(all, DedupFirst(RunningIds(ids[..i + 1], all)))
    ensures forall x :: x in seen <==> x in RunningIds(ids[..i + 1], all)
  {
    var id := ids[i];
    var prev := RunningIds(ids[..i], all);
    assert ids[..i + 1] == ids[..i] + [id];
    RunningIdsSnoc(ids[..i], id, all);
    if FirstWithId(all, id).None? {
      assert RunningIds(ids[..i + 1], all) == prev;
    } else {
      assert RunningIds(ids[..i + 1], all) == prev + [id];
      DedupFirstSnoc(prev, id);
      if id in seen0 {
        assert DedupFirst(prev + [id]) == DedupFirst(prev);
      } else {
        assert DedupFirst(prev + [id]) == DedupFirst(prev) + [id];
        LookupSnoc(all, DedupFirst(prev), id);
      }
    }
  }

  /** One turn of the loop over the regular apps of `orderedAppsForOverlay`:
      an app whose bundle identifier was not seen yet is appended and its id
      marked seen; the loop invariant then holds for the next index. */
  lemma AppLoopStep(rIds: seq<string>, all: seq<RunningApp>, j: nat,
                    result0: seq<RunningApp>, seen0: set<string>,
                    result: seq<RunningApp>, seen: set<string>)
    requires j < |all|
    requires result0 == Lookup(all, DedupFirst(rIds + BundleIds(all[..j])))
    requires forall x :: x in seen0 <==> x in rIds + BundleIds(all[..j])
    requires if all[j].bundleId.Some? && all[j].bundleId.value !in seen0
      then result == result0 + [all[j]] && seen == seen0 + {all[j].bundleId.value}
      else result == result0 && seen == seen0
    ensures result == Lookup(all, DedupFirst(rIds + BundleIds(all[..j + 1])))
    ensures forall x :: x in seen <==> x in rIds + BundleIds(all[..j + 1])
  {
    var a := all[j];
    var x := rIds + BundleIds(all[..j]);
    assert all[..j + 1] == all[..j] + [a];
    BundleIdsSnoc(all[..j], a);
    if a.bundleId.Some? {
      var v := a.bundleId.value;
      assert rIds + BundleIds(all[..j + 1]) == x + [v];
      DedupFirstSnoc(x, v);
      if v !in x {
        FirstWithIdAt(all, j, v);
        LookupSnoc(all, DedupFirst(x), v);
      }
    } else {
      assert rIds + BundleIds(all[..j + 1]) == x;
    }
  }

  /** `orderedAppsForOverlay()`: the candidates for a session, MRU order
      first, then the other regular apps. */
  method OrderedAppsForOverlay(mruIds: seq<string>, running: seq<RunningApp>) returns (result: seq<RunningApp>)
    ensures result == Candidates(mruIds, running)
  {
    var all := Regular(running);
    var seen: set<string> := {};
    result := [];
    var i := 0;
    while i < |mruIds|
      invariant 0 <= i <= |mruIds|
      invariant result == Lookup(all, DedupFirst(RunningIds(mruIds[..i], all)))
      invariant forall x :: x in seen <==> x in RunningIds(mruIds[..i], all)
    {
      var id := mruIds[i];
      var app := FirstWithId(all, id);
      ghost var result0, seen0 := result, seen;
      if app.Some? && id !in seen {
        seen := seen + {id};
        result := result + [app.value];
      }
      MruLoopStep(mruIds, i, all, result0, seen0, result, seen);
      i := i + 1;
    }
    assert mruIds[..i] == mruIds;
    var rIds := RunningIds(mruIds, all);
    var j := 0;
    assert rIds + BundleIds(all[..0]) == rIds;
    while j < |all|
      invariant 0 <= j <= |all|
      invariant result == Lookup(all, DedupFirst(rIds + BundleIds(all[..j])))
      invariant forall x :: x in seen <==> x in rIds + BundleIds(all[..j])
    {
      var a := all[j];
      ghost var result0, seen0 := result, seen;
      if a.bundleId.Some? && a.bundleId.value !in seen {
        seen := seen + {a.bundleId.value};
        result := result + [a];
      }
      AppLoopStep(rIds, all, j, result0, seen0, result, seen);
      ghost var scanned := rIds + BundleIds(all[..j + 1]);
      j := j + 1;
      assert scanned == rIds + BundleIds(all[..j]);
    }
    assert all[..j] == all;
  }

  /** The regular apps owning the windows `pids`, in order; pids without a
      running app, or whose app is not regular, are skipped. */
  function Owners(pids: seq<int>, running: seq<RunningApp>): (r: seq<RunningApp>)
    ensures |r| <= |pids|
    ensures forall k :: 0 <= k < |r| ==> r[k].regular
  {
    if pids == [] then []
    else
      var init := Owners(pids[..|pids| - 1], running);
      match ByPid(running, pids[|pids| - 1])
      case None => init
      case Some(a) => if a.regular then init + [a] else init
  }

  lemma OwnersSnoc(pids: seq<int>, p: int, running: seq<RunningApp>)
    ensures Owners(pids + [p], running) ==
      match ByPid(running, p)
      case None => Owners(pids, running)
      case Some(a) => if a.regular then Owners(pids, running) + [a] else Owners(pids, running)
  {
    assert (pids + [p])[..|pids|] == pids;
  }

  /** What `zOrderedRegularApps()` returns for the on-screen window owner
      pids `windows`, front to back: each pid is marked seen at its first
      window, whether or not its app is kept. */
  function ZOrder(windows: seq<int>, running: seq<RunningApp>): (r: seq<RunningApp>)
    ensures |r| <= |windows|
  {
    Owners(DedupFirst(windows), running)
  }

  /** Every owner is a regular running app owning one of the pids. */
  lemma {:induction false} OwnersIn(pids: seq<int>, running: seq<RunningApp>)
    ensures forall k :: 0 <= k < |Owners(pids, running)| ==>
      var a := Owners(pids, running)[k]; a in running && a.regular && a.pid in pids
  {
    if pids != [] {
      var p := pids[..|pids| - 1];
      var last := pids[|pids| - 1];
      assert pids == p + [last];
      OwnersIn(p, running);
      OwnersSnoc(p, last, running);
    }
  }

  /** Owners keeps the order of its pids. */
  lemma {:induction false} OwnersOrder(pids: seq<int>, running: seq<RunningApp>, windows: seq<int>)
    requires forall k :: 0 <= k < |pids| ==> pids[k] in windows
    requires forall i, j :: 0 <= i < j < |pids| ==> FirstIndex(windows, pids[i]) < FirstIndex(windows, pids[j])
    ensures forall k :: 0 <= k < |Owners(pids, running)| ==> Owners(pids, running)[k].pid in windows
    ensures forall i, j :: 0 <= i < j < |Owners(pids, running)| ==>
      FirstIndex(windows, Owners(pids, running)[i].pid) < FirstIndex(windows, Owners(pids, running)[j].pid)
  {
    if pids != [] {
      var p := pids[..|pids| - 1];
      var last := pids[|pids| - 1];
      assert pids == p + [last];
      assert forall k :: 0 <= k < |p| ==> p[k] == pids[k];
      OwnersOrder(p, running, windows);
      OwnersBefore(p, last, running, windows);
      var o := Owners(p, running);
      var b := ByPid(running, last);
      if b.Some? && b.value.regular {
        assert Owners(pids, running) == o + [b.value] by {
          OwnersSnoc(p, last, running);
        }
        OrderAppend(o, b.value, windows);
      } else {
        assert Owners(pids, running) == o by {
          OwnersSnoc(p, last, running);
        }
      }
    }
  }

  /** An app whose pid comes after every pid of `o` in the window list can
      be appended without breaking the order. */
  lemma OrderAppend(o: seq<RunningApp>, a: RunningApp, windows: seq<int>)
    requires a.pid in windows
    requires forall k :: 0 <= k < |o| ==>
      o[k].pid in windows && FirstIndex(windows, o[k].pid) < FirstIndex(windows, a.pid)
    requires forall i, j :: 0 <= i < j < |o| ==> FirstIndex(windows, o[i].pid) < FirstIndex(windows, o[j].pid)
    ensures forall k :: 0 <= k < |o + [a]| ==> (o + [a])[k].pid in windows
    ensures forall i, j :: 0 <= i < j < |o + [a]| ==>
      FirstIndex(windows, (o + [a])[i].pid) < FirstIndex(windows, (o + [a])[j].pid)
  {
    var o' := o + [a];
    forall i, j | 0 <= i < j < |o'|
      ensures FirstIndex(windows, o'[i].pid) < FirstIndex(windows, o'[j].pid)
    {
      if j < |o| {
        assert o'[i] == o[i] && o'[j] == o[j];
      } else {
        assert o'[i] == o[i] && o'[j] == a;
      }
    }
  }

  /** When every pid comes before `last` in the window list, so does every
      owner. */
  lemma OwnersBefore(p: seq<int>, last: int, running: seq<RunningApp>, windows: seq<int>)
    requires last in windows
    requires forall k :: 0 <= k < |p| ==> p[k] in windows && FirstIndex(windows, p[k]) < FirstIndex(windows, last)
    ensures forall k :: 0 <= k < |Owners(p, running)| ==>
      Owners(p, running)[k].pid in windows &&
      FirstIndex(windows, Owners(p, running)[k].pid) < FirstIndex(windows, last)
  {
    var o := Owners(p, running);
    OwnersIn(p, running);
    forall k | 0 <= k < |o|
      ensures o[k].pid in windows && FirstIndex(windows, o[k].pid) < FirstIndex(windows, last)
    {
      var m :| 0 <= m < |p| && p[m] == o[k].pid;
    }
  }

  /** Owners finds the app of every pid whose app is regular. */
  lemma {:induction false} OwnersComplete(pids: seq<int>, running: seq<RunningApp>)
    ensures forall p :: p in pids && ByPid(running, p).Some? && ByPid(running, p).value.regular ==>
      ByPid(running, p).value in Owners(pids, running)
  {
    if pids != [] {
      var p := pids[..|pids| - 1];
      var last := pids[|pids| - 1];
      assert pids == p + [last];
      OwnersComplete(p, running);
      OwnersSnoc(p, last, running);
    }
  }

  /** The z-ordered apps are regular running apps owning an on-screen
      window, ordered by the first window each owns, so no pid twice; every
      regular owner of a window is among them. */
  lemma ZOrderSpec(windows: seq<int>, running: seq<RunningApp>)
    ensures forall k :: 0 <= k < |ZOrder(windows, running)| ==>
      var a := ZOrder(windows, running)[k]; a in running && a.regular && a.pid in windows
    ensures forall i, j :: 0 <= i < j < |ZOrder(windows, running)| ==>
      FirstIndex(windows, ZOrder(windows, running)[i].pid) < FirstIndex(windows, ZOrder(windows, running)[j].pid)
    ensures forall i, j :: 0 <= i < j < |ZOrder(windows, running)| ==>
      ZOrder(windows, running)[i].pid != ZOrder(windows, running)[j].pid
    ensures forall p :: p in windows && ByPid(running, p).Some? && ByPid(running, p).value.regular ==>
      ByPid(running, p).value in ZOrder(windows, running)
  {
    var d := DedupFirst(windows);
    DedupFirstOrder(windows);
    DedupFirstMembers(windows);
    OwnersIn(d, running);
    OwnersOrder(d, running, windows);
    OwnersComplete(d, running);
  }

  /** One turn of the window loop of `zOrderedRegularApps`: the pid is
      marked seen, and at its first window its app is appended when it is
      regular. */
  lemma ZOrderLoopStep(info: seq<int>, i: nat, running: seq<RunningApp>,
                       ordered0: seq<RunningApp>, seen0: set<int>,
                       ordered: seq<RunningApp>, seen: set<int>)
    requires i < |info|
    requires ordered0 == Owners(DedupFirst(info[..i]), running)
    requires forall p :: p in seen0 <==> p in info[..i]
    requires seen == seen0 + {info[i]}
    requires ordered == if info[i] !in seen0 && ByPid(running, info[i]).Some? && ByPid(running, info[i]).value.regular
      then ordered0 + [ByPid(running, info[i]).value] else ordered0
    ensures ordered == Owners(DedupFirst(info[..i + 1]), running)
    ensures forall p :: p in seen <==> p in info[..i + 1]
  {
    assert info[..i + 1] == info[..i] + [info[i]];
    ZOrderOwnersStep(info[..i], info[i], running, info[i] in seen0);
  }

  /** The owners of the deduplicated pids grow by the app of a new pid, when
      it is regular, and stay for a pid seen before. */
  lemma ZOrderOwnersStep(prefix: seq<int>, pid: int, running: seq<RunningApp>, inSeen: bool)
    requires inSeen == (pid in prefix)
    ensures Owners(DedupFirst(prefix + [pid]), running) ==
      if !inSeen && ByPid(running, pid).Some? && ByPid(running, pid).value.regular
      then Owners(DedupFirst(prefix), running) + [ByPid(running, pid).value]
      else Owners(DedupFirst(prefix), running)
  {
    DedupFirstSnoc(prefix, pid);
    if !inSeen {
      OwnersSnoc(DedupFirst(prefix), pid, running);
    }
  }

  /** `zOrderedRegularApps()`: `None` when the window list cannot be read,
      otherwise the regular owners of the on-screen windows, front to back. */
  method ZOrderedRegularApps(windows: Option<seq<int>>, running: seq<RunningApp>)
    returns (r: Option<seq<RunningApp>>)
    requires UniquePids(running)
    ensures r == if windows.None? then None else Some(ZOrder(windows.value, running))
  {
    if windows.None? {
      return None;
    }
    var info := windows.value;
    var seen: set<int> := {};
    var ordered: seq<RunningApp> := [];
    var i := 0;
    while i < |info|
      invariant 0 <= i <= |info|
      invariant ordered == Owners(DedupFirst(info[..i]), running)
      invariant forall p :: p in seen <==> p in info[..i]
    {
      var pid := info[i];
      ghost var ordered0, seen0 := ordered, seen;
      var inserted := pid !in seen;
      seen := seen + {pid};
      if inserted {
        var app := ByPid(running, pid);
        if app.Some? && app.value.regular {
          ordered := ordered + [app.value];
        }
      }
      ZOrderLoopStep(info, i, running, ordered0, seen0, ordered, seen);
      i := i + 1;
    }
    assert info[..i] == info;
    return Some(ordered);
  }

  /** The regular apps with the frontmost app (matched by pid) moved to
      the front: the fallback seed order of `seedMRUIfNeeded`. */
  function FrontFirst(apps: seq<RunningApp>, front: Option<RunningApp>): (r: seq<RunningApp>)
    ensures |r| == |apps|
    ensures front.Some? && IndexOfPid(apps, front.value.pid).Some? ==> r[0].pid == front.value.pid
  {
    if front.None? then apps
    else match IndexOfPid(apps, front.value.pid)
      case None => apps
      case Some(i) => MoveToFront(apps, i)
  }

  /** The bundle identifier of the frontmost application, if any. */
  function FrontId(front: Option<RunningApp>): Option<string> {
    if front.Some? then front.value.bundleId else None
  }

  /** The apps `seedMRUIfNeeded` seeds from: the z-ordered regular apps when
      the window list is readable and yields at least one, else the regular
      running apps with the frontmost first. */
  function SeedSource(running: seq<RunningApp>, windows: Option<seq<int>>, front: Option<RunningApp>): (r: seq<RunningApp>)
    ensures r == [] ==> Regular(running) == []
  {
    if windows.Some? && ZOrder(windows.value, running) != [] then ZOrder(windows.value, running)
    else FrontFirst(Regular(running), front)
  }

  /** The MRU list after `seedMRUIfNeeded()`: unchanged when not empty. */
  function SeededMru(mru: seq<string>, running: seq<RunningApp>, windows: Option<seq<int>>, front: Option<RunningApp>): (r: seq<string>)
    ensures mru != [] ==> r == mru
  {
    if mru != [] then mru else SeedList(SeedSource(running, windows, front), FrontId(front))
  }

  /** The seed source holds only regular running apps. */
  lemma SeedSourceRegular(running: seq<RunningApp>, windows: Option<seq<int>>, front: Option<RunningApp>)
    ensures forall a :: a in SeedSource(running, windows, front) ==> a in running && a.regular
  {
    if windows.Some? && ZOrder(windows.value, running) != [] {
      var z := ZOrder(windows.value, running);
      ZOrderSpec(windows.value, running);
      forall a | a in z
        ensures a in running && a.regular
      {
        var k :| 0 <= k < |z| && z[k] == a;
      }
    } else {
      var all := Regular(running);
      RegularMembers(running);
      if front.Some? && IndexOfPid(all, front.value.pid).Some? {
        MoveToFrontPerm(all, IndexOfPid(all, front.value.pid).value);
      }
    }
  }

  /** Seeding leaves a non-empty list alone; a seeded list holds each id
      once, only ids of regular running apps, with the frontmost app's id at
      index 0 whenever the seed source carries it. */
  lemma SeededMruSpec(mru: seq<string>, running: seq<RunningApp>, windows: Option<seq<int>>, front: Option<RunningApp>)
    ensures mru != [] ==> SeededMru(mru, running, windows, front) == mru
    ensures NoDups(mru) ==> NoDups(SeededMru(mru, running, windows, front))
    ensures mru == [] ==> forall id :: id in SeededMru(mru, running, windows, front) ==>
      exists a :: a in running && a.regular && a.bundleId == Some(id)
    ensures mru == [] && FrontId(front).Some? && FrontId(front).value in BundleIds(SeedSource(running, windows, front)) ==>
      SeededMru(mru, running, windows, front)[0] == FrontId(front).value
  {
    if mru == [] {
      var src := SeedSource(running, windows, front);
      var l := SeedList(src, FrontId(front));
      SeedListSpec(src, FrontId(front));
      SeedSourceRegular(running, windows, front);
      forall id | id in l
        ensures exists a :: a in running && a.regular && a.bundleId == Some(id)
      {
        var a :| a in src && a.bundleId == Some(id);
        assert a in running && a.regular;
      }
    }
  }

  /** On the fallback path, a regular frontmost app with a bundle identifier
      ends up at the front of the seeded list. */
  lemma SeedFallbackFrontFirst(running: seq<RunningApp>, windows: Option<seq<int>>, f: RunningApp)
    requires windows.None? || ZOrder(windows.value, running) == []
    requires f in running && f.regular && f.bundleId.Some?
    ensures |SeededMru([], running, windows, Some(f))| > 0 && SeededMru([], running, windows, Some(f))[0] == f.bundleId.value
  {
    var all := Regular(running);
    RegularMembers(running);
    assert f in all;
    var src := SeedSource(running, windows, Some(f));
    assert src == FrontFirst(all, Some(f));
    assert f in src by {
      if IndexOfPid(all, f.pid).Some? {
        MoveToFrontPerm(all, IndexOfPid(all, f.pid).value);
      }
    }
    BundleIdsMembers(src);
    assert f.bundleId.value in BundleIds(src);
    SeedListSpec(src, FrontId(Some(f)));
  }
}
