/**
 The drawing side: the per-instance records the visitor emits, and the two
 renderers' draw logic with GPU commands abstracted as emitted instance
 ranges. The flat renderer draws all instances at once; the texture renderer
 sorts its instances by texture id and issues one draw per run of equal ids.
 */
module Renderer {
  import opened Wrappers
  import opened SceneGraph
  import opened Textures

  datatype IVec3 = IVec3(x: int, y: int, z: int)
  datatype IVec2 = IVec2(x: int, y: int)

  /** A flat-colour rectangle: origin and z-index, extent, colour. */
  datatype FlatInstance = FlatInstance(position: IVec3, scale: IVec2, color: Color)

  /** A textured rectangle: origin and z-index, extent, texture id. */
  datatype TextureInstance = TextureInstance(position: IVec3, scale: IVec2, textureId: TextureId)
  {
    /** `raw()`: the GPU-side record, the instance without its texture id. */
    function Raw(): (r: TextureInstanceRaw)
      ensures r.position == position && r.scale == scale
    {
      TextureInstanceRaw(position, scale)
    }
  }

  datatype TextureInstanceRaw = TextureInstanceRaw(position: IVec3, scale: IVec2)

  /** An instance range `start..end` passed to one `draw_indexed` call. */
  datatype Range = Range(start: nat, end: nat)

  /**
   `FlatRenderer::draw`: nothing when there are no instances, otherwise one
   draw over every instance in the buffer.
   */
  function FlatDraw(instances: seq<FlatInstance>): (draws: seq<Range>)
    ensures |draws| == 0 <==> |instances| == 0
    ensures |draws| <= 1
    ensures forall j :: 0 <= j < |draws| ==> draws[j].start == 0 && draws[j].end == |instances|
  {
    if |instances| == 0 then [] else [Range(0, |instances|)]
  }

  // Sorting by texture id

  ghost predicate Sorted(s: seq<TextureInstance>)
  {
    forall i, j :: 0 <= i < j < |s| ==> s[i].textureId <= s[j].textureId
  }

  /** The instances with texture id k, in the order they appear. */
  function WithKey(s: seq<TextureInstance>, k: TextureId): seq<TextureInstance>
  {
    if |s| == 0 then []
    else (if s[0].textureId == k then [s[0]] else []) + WithKey(s[1..], k)
  }

  /** x placed before the first element whose id is not below its own. */
  function Insert(x: TextureInstance, s: seq<TextureInstance>): (r: seq<TextureInstance>)
    ensures |r| == |s| + 1
  {
    if |s| == 0 then [x]
    else if x.textureId <= s[0].textureId then [x] + s
    else [s[0]] + Insert(x, s[1..])
  }

  lemma {:induction false} InsertPermutes(x: TextureInstance, s: seq<TextureInstance>)
    ensures multiset(Insert(x, s)) == multiset(s) + multiset{x}
    decreases |s|
  {
    if |s| > 0 && s[0].textureId < x.textureId {
      InsertPermutes(x, s[1..]);
      assert s == [s[0]] + s[1..];
    }
  }

  /** Insert keeps a lower bound on the ids that x and every element of s respect. */
  lemma {:induction false} InsertAbove(x: TextureInstance, s: seq<TextureInstance>, b: int)
    requires b <= x.textureId
    requires forall i :: 0 <= i < |s| ==> b <= s[i].textureId
    ensures forall i :: 0 <= i < |Insert(x, s)| ==> b <= Insert(x, s)[i].textureId
    decreases |s|
  {
    if |s| > 0 && s[0].textureId < x.textureId {
      InsertAbove(x, s[1..], b);
      assert Insert(x, s) == [s[0]] + Insert(x, s[1..]);
    }
  }

  lemma {:induction false} InsertSorted(x: TextureInstance, s: seq<TextureInstance>)
    requires Sorted(s)
    ensures Sorted(Insert(x, s))
    decreases |s|
  {
    if |s| > 0 && s[0].textureId < x.textureId {
      var t := Insert(x, s[1..]);
      InsertSorted(x, s[1..]);
      InsertAbove(x, s[1..], s[0].textureId);
      var r := [s[0]] + t;
      assert Insert(x, s) == r;
      forall i, j | 0 <= i < j < |r|
        ensures r[i].textureId <= r[j].textureId
      {
        assert r[j] == t[j - 1];
        if i > 0 {
          assert r[i] == t[i - 1];
        }
      }
    }
  }

  /** Among the instances of one id, Insert puts x first. */
  lemma {:induction false} InsertStable(x: TextureInstance, s: seq<TextureInstance>, k: TextureId)
    requires Sorted(s)
    ensures WithKey(Insert(x, s), k) == (if x.textureId == k then [x] else []) + WithKey(s, k)
    decreases |s|
  {
    if |s| > 0 && s[0].textureId < x.textureId {
      InsertStable(x, s[1..], k);
      assert ([s[0]] + Insert(x, s[1..]))[1..] == Insert(x, s[1..]);
    }
  }

  /**
   `sort_by_key(|i| i.texture_id)`: a stable sort, built by inserting each
   instance in front of the already sorted rest.
   */
  function SortByKey(s: seq<TextureInstance>): (r: seq<TextureInstance>)
    ensures |r| == |s|
    ensures Sorted(r)
    ensures multiset(r) == multiset(s)
  {
    if |s| == 0 then []
    else
      var rest := SortByKey(s[1..]);
      InsertSorted(s[0], rest);
      InsertPermutes(s[0], rest);
      assert s == [s[0]] + s[1..];
      Insert(s[0], rest)
  }

  /** Stability: the instances of every id keep their relative order. */
  lemma {:induction false} SortByKeyStable(s: seq<TextureInstance>, k: TextureId)
    ensures WithKey(SortByKey(s), k) == WithKey(s, k)
    decreases |s|
  {
    if |s| > 0 {
      SortByKeyStable(s[1..], k);
      InsertStable(s[0], SortByKey(s[1..]), k);
    }
  }

  /** The texture ids of the instances, in order. */
  function Keys(s: seq<TextureInstance>): (ids: seq<TextureId>)
    ensures |ids| == |s|
    ensures forall i :: 0 <= i < |s| ==> ids[i] == s[i].textureId
  {
    if |s| == 0 then [] else Keys(s[..|s| - 1]) + [s[|s| - 1].textureId]
  }

  // Runs of equal texture ids

  /** A maximal block `start..end` of positions that all carry texture id `id`. */
  datatype Run = Run(id: TextureId, start: nat, end: nat)

  /** One more id at position n: the last run grows when it has that id, otherwise a new run starts. */
  function Step(rs: seq<Run>, x: TextureId, n: nat): seq<Run>
  {
    if |rs| > 0 && rs[|rs| - 1].id == x then rs[..|rs| - 1] + [Run(x, rs[|rs| - 1].start, n + 1)]
    else rs + [Run(x, n, n + 1)]
  }

  /**
   The reference grouping: runs of equal ids from left to right, the last run
   growing while the next id equals its id.
   */
  function Runs(ids: seq<TextureId>): (runs: seq<Run>)
    ensures |runs| == 0 <==> |ids| == 0
    ensures |runs| > 0 ==> runs[|runs| - 1].id == ids[|ids| - 1] && runs[|runs| - 1].end == |ids|
  {
    if |ids| == 0 then [] else Step(Runs(ids[..|ids| - 1]), ids[|ids| - 1], |ids| - 1)
  }

  /**
   runs tile ids: each run is non-empty and uniform, the runs cover
   `0..|ids|` in order without gaps or overlaps, and two adjacent runs have
   different ids (so every run is maximal).
   */
  ghost predicate Tiles(ids: seq<TextureId>, runs: seq<Run>)
  {
    && (|runs| == 0 <==> |ids| == 0)
    && (|runs| > 0 ==> runs[0].start == 0 && runs[|runs| - 1].end == |ids|)
    && (forall k :: 0 <= k < |runs| ==> runs[k].start < runs[k].end <= |ids|)
    && (forall k :: 0 <= k < |runs| - 1 ==> runs[k].end == runs[k + 1].start)
    && (forall k, i :: 0 <= k < |runs| && runs[k].start <= i < runs[k].end ==> ids[i] == runs[k].id)
    && (forall k :: 0 <= k < |runs| - 1 ==> runs[k].id != runs[k + 1].id)
  }

  /** The first run of a tiling covers the first position alone. */
  lemma FirstRunTiles(x: TextureId)
    ensures Tiles([x], [Run(x, 0, 1)])
  {
  }

  /** A new run at the end keeps the tiling, when its id differs from the last run's. */
  lemma AppendNextRun(ids: seq<TextureId>, rs: seq<Run>, x: TextureId)
    requires Tiles(ids, rs)
    requires |rs| > 0 && rs[|rs| - 1].id != x
    ensures Tiles(ids + [x], rs + [Run(x, |ids|, |ids| + 1)])
  {
    var ids' := ids + [x];
    var runs := rs + [Run(x, |ids|, |ids| + 1)];
    var m := |rs| - 1;
    forall k, i | 0 <= k < |runs| && runs[k].start <= i < runs[k].end
      ensures ids'[i] == runs[k].id
    {
      if k < |rs| {
        assert runs[k] == rs[k];
        assert ids'[i] == ids[i];
      }
    }
    assert runs[m].end == runs[m + 1].start;
  }

  /** Growing the last run by one position keeps the tiling, when the new id is the last run's. */
  lemma GrowRunTiles(ids: seq<TextureId>, rs: seq<Run>, x: TextureId)
    requires Tiles(ids, rs)
    requires |rs| > 0 && rs[|rs| - 1].id == x
    ensures Tiles(ids + [x], Step(rs, x, |ids|))
  {
    var m := |rs| - 1;
    var ids' := ids + [x];
    var runs := rs[..m] + [Run(x, rs[m].start, |ids| + 1)];
    assert Step(rs, x, |ids|) == runs;
    forall k, i | 0 <= k < |runs| && runs[k].start <= i < runs[k].end
      ensures ids'[i] == runs[k].id
    {
      if k < m {
        assert runs[k] == rs[k];
        assert ids'[i] == ids[i];
      } else if i < |ids| {
        assert rs[m].start <= i < rs[m].end;
        assert ids'[i] == ids[i];
      }
    }
  }

  lemma {:induction false} RunsTile(ids: seq<TextureId>)
    ensures Tiles(ids, Runs(ids))
    decreases |ids|
  {
    if |ids| > 0 {
      var n := |ids| - 1;
      var rs := Runs(ids[..n]);
      RunsTile(ids[..n]);
      assert ids[..n] + [ids[n]] == ids;
      assert Runs(ids) == Step(rs, ids[n], n);
      if |rs| > 0 && rs[|rs| - 1].id == ids[n] {
        GrowRunTiles(ids[..n], rs, ids[n]);
      } else if |rs| == 0 {
        assert ids == [ids[n]];
        FirstRunTiles(ids[n]);
      } else {
        AppendNextRun(ids[..n], rs, ids[n]);
      }
    }
  }

  /** Runs of a tiling are in order: a later run starts no earlier than an earlier one ends. */
  lemma {:induction false} TilesOrdered(ids: seq<TextureId>, runs: seq<Run>, k: nat, l: nat)
    requires Tiles(ids, runs)
    requires k < l < |runs|
    ensures runs[k].end <= runs[l].start
    decreases l - k
  {
    if k + 1 < l {
      TilesOrdered(ids, runs, k + 1, l);
    }
  }

  /** Every position of a run carries the run's id. */
  lemma RunUniform(ids: seq<TextureId>, k: nat, i: nat)
    requires k < |Runs(ids)| && Runs(ids)[k].start <= i < Runs(ids)[k].end
    ensures i < |ids| && ids[i] == Runs(ids)[k].id
  {
    RunsTile(ids);
  }

  /** Every position lies in some run. */
  lemma RunOf(ids: seq<TextureId>, i: nat) returns (k: nat)
    requires i < |ids|
    ensures k < |Runs(ids)| && Runs(ids)[k].start <= i < Runs(ids)[k].end
  {
    RunsTile(ids);
    var runs := Runs(ids);
    k := 0;
    while runs[k].end <= i
      invariant k < |runs| && runs[k].start <= i
      decreases |runs| - k
    {
      k := k + 1;
    }
  }

  /** On sorted ids the run ids strictly increase, so each id has at most one run. */
  lemma SortedRunsDistinct(ids: seq<TextureId>)
    requires forall i, j :: 0 <= i < j < |ids| ==> ids[i] <= ids[j]
    ensures forall k, l :: 0 <= k < l < |Runs(ids)| ==> Runs(ids)[k].id < Runs(ids)[l].id
  {
    RunsTile(ids);
    var runs := Runs(ids);
    forall k, l | 0 <= k < l < |runs|
      ensures runs[k].id < runs[l].id
    {
      assert ids[runs[k].start] == runs[k].id;
      assert ids[runs[k + 1].start] == runs[k + 1].id;
      assert ids[runs[l].start] == runs[l].id;
      if k + 1 < l {
        TilesOrdered(ids, runs, k + 1, l);
      }
    }
  }

  // Draw calls of the texture renderer

  /** One textured draw: the bind group of `texture` set, then the range `start..end` drawn. */
  datatype DrawCall = DrawCall(id: TextureId, texture: Texture, start: nat, end: nat)

  /** A run is drawn with its texture when the manager has one, and skipped otherwise. */
  function DrawOf(run: Run, tm: TextureManager): (calls: seq<DrawCall>)
    ensures run.id in tm.textures ==> calls == [DrawCall(run.id, tm.textures[run.id], run.start, run.end)]
    ensures run.id !in tm.textures ==> calls == []
  {
    match GetTexture(tm, run.id)
    case Some(t) => [DrawCall(run.id, t, run.start, run.end)]
    case None => []
  }

  /** The draws of a sequence of runs, in order. */
  function Drawn(runs: seq<Run>, tm: TextureManager): seq<DrawCall>
  {
    if |runs| == 0 then [] else Drawn(runs[..|runs| - 1], tm) + DrawOf(runs[|runs| - 1], tm)
  }

  /**
   Which run each draw comes from: the draws are the runs whose texture is
   loaded, in increasing run order, and every such run has its draw.
   */
  lemma {:induction false} DrawnSources(runs: seq<Run>, tm: TextureManager) returns (ks: seq<nat>)
    ensures Sources(runs, Drawn(runs, tm), ks, tm)
    decreases |runs|
  {
    if |runs| == 0 {
      ks := [];
    } else {
      var n := |runs| - 1;
      var pre := DrawnSources(runs[..n], tm);
      if runs[n].id in tm.textures {
        ks := pre + [n];
        SourcesLoaded(runs, Drawn(runs[..n], tm), pre, tm);
      } else {
        ks := pre;
        SourcesSkipped(runs, Drawn(runs[..n], tm), pre, tm);
      }
    }
  }

  /**
   ks lists, in increasing order, the runs that have a draw in calls: call j
   is the draw of run ks[j], whose texture is loaded, and every run with a
   loaded texture is listed.
   */
  ghost predicate Sources(runs: seq<Run>, calls: seq<DrawCall>, ks: seq<nat>, tm: TextureManager)
  {
    && |ks| == |calls|
    && (forall j :: 0 <= j < |ks| ==>
          && ks[j] < |runs| && runs[ks[j]].id in tm.textures
          && calls[j] == DrawCall(runs[ks[j]].id, tm.textures[runs[ks[j]].id], runs[ks[j]].start, runs[ks[j]].end))
    && (forall j, l :: 0 <= j < l < |ks| ==> ks[j] < ks[l])
    && (forall k :: 0 <= k < |runs| && runs[k].id in tm.textures ==> k in ks)
  }

  lemma SourcesLoaded(runs: seq<Run>, pc: seq<DrawCall>, pre: seq<nat>, tm: TextureManager)
    requires |runs| > 0 && runs[|runs| - 1].id in tm.textures
    requires Sources(runs[..|runs| - 1], pc, pre, tm)
    ensures var r := runs[|runs| - 1];
      Sources(runs, pc + [DrawCall(r.id, tm.textures[r.id], r.start, r.end)], pre + [|runs| - 1], tm)
  {
    var n := |runs| - 1;
    assert forall k :: 0 <= k < n ==> runs[..n][k] == runs[k];
  }

  lemma SourcesSkipped(runs: seq<Run>, pc: seq<DrawCall>, pre: seq<nat>, tm: TextureManager)
    requires |runs| > 0 && runs[|runs| - 1].id !in tm.textures
    requires Sources(runs[..|runs| - 1], pc, pre, tm)
    ensures Sources(runs, pc, pre, tm)
  {
    var n := |runs| - 1;
    assert forall k :: 0 <= k < n ==> runs[..n][k] == runs[k];
  }

  /** Runs of one more id: the earlier runs but the last are kept, and the last run either grows or is closed. */
  lemma RunsSplit(ids: seq<TextureId>, n: nat)
    requires 0 < n < |ids|
    ensures var rs := Runs(ids[..n]); var next := Runs(ids[..n + 1]);
      && |rs| > 0 && |next| > 0
      && (rs[|rs| - 1].id == ids[n] ==> next[..|next| - 1] == rs[..|rs| - 1] && next[|next| - 1] == Run(ids[n], rs[|rs| - 1].start, n + 1))
      && (rs[|rs| - 1].id != ids[n] ==> next[..|next| - 1] == rs && next[|next| - 1] == Run(ids[n], n, n + 1))
  {
    var rs := Runs(ids[..n]);
    assert ids[..n + 1][..n] == ids[..n];
    assert Runs(ids[..n + 1]) == Step(rs, ids[n], n);
    if rs[|rs| - 1].id == ids[n] {
      assert (rs[..|rs| - 1] + [Run(ids[n], rs[|rs| - 1].start, n + 1)])[..|rs| - 1] == rs[..|rs| - 1];
    } else {
      assert (rs + [Run(ids[n], n, n + 1)])[..|rs|] == rs;
    }
  }

  /**
   The state of the walk after num ids: the runs so far end with the open run
   (last, start, num), and calls holds the draws of the closed runs.
   */
  ghost predicate Walked(ids: seq<TextureId>, tm: TextureManager, num: nat, last: TextureId, start: nat, calls: seq<DrawCall>)
  {
    && 0 < num <= |ids|
    && var rs := Runs(ids[..num]);
    && |rs| > 0 && rs[|rs| - 1] == Run(last, start, num)
    && calls == Drawn(rs[..|rs| - 1], tm)
  }

  lemma WalkStart(ids: seq<TextureId>, tm: TextureManager)
    requires |ids| > 0
    ensures Walked(ids, tm, 1, ids[0], 0, [])
  {
    assert ids[..1] == [ids[0]];
  }

  /** One more instance of the open run's id grows that run; the closed runs, and so their draws, stay. */
  lemma WalkGrow(ids: seq<TextureId>, tm: TextureManager, num: nat, last: TextureId, start: nat, calls: seq<DrawCall>)
    requires Walked(ids, tm, num, last, start, calls) && num < |ids| && ids[num] == last
    ensures Walked(ids, tm, num + 1, last, start, calls)
  {
    RunsSplit(ids, num);
  }

  /** One more instance of another id closes the open run, adding its draw, and opens a run at num. */
  lemma WalkClose(ids: seq<TextureId>, tm: TextureManager, num: nat, last: TextureId, start: nat, calls: seq<DrawCall>)
    requires Walked(ids, tm, num, last, start, calls) && num < |ids| && ids[num] != last
    ensures Walked(ids, tm, num + 1, ids[num], num, calls + DrawOf(Run(last, start, num), tm))
  {
    RunsSplit(ids, num);
  }

  /** At the end, closing the open run gives the draws of all runs. */
  lemma WalkEnd(ids: seq<TextureId>, tm: TextureManager, last: TextureId, start: nat, calls: seq<DrawCall>)
    requires Walked(ids, tm, |ids|, last, start, calls)
    ensures Drawn(Runs(ids), tm) == calls + DrawOf(Run(last, start, |ids|), tm)
  {
    assert ids[..|ids|] == ids;
  }

  /**
   `TextureRenderer::draw`: sort the instances by texture id, upload their raw
   records, then walk their ids once (DrawRuns).
   */
  method DrawTextured(instances: seq<TextureInstance>, tm: TextureManager) returns (raws: seq<TextureInstanceRaw>, calls: seq<DrawCall>)
    ensures |instances| == 0 ==> raws == [] && calls == []
    ensures |instances| > 0 ==>
      |raws| == |instances| && forall i :: 0 <= i < |raws| ==> raws[i] == SortByKey(instances)[i].Raw()
    ensures calls == Drawn(Runs(Keys(SortByKey(instances))), tm)
  {
    if |instances| == 0 {
      return [], [];
    }
    var sorted := SortByKey(instances);
    raws := seq(|sorted|, i requires 0 <= i < |sorted| => sorted[i].Raw());
    calls := DrawRuns(Keys(sorted), tm);
  }

  /**
   The walk of `TextureRenderer::draw` over the sorted ids: a run is closed,
   and drawn when its texture is loaded, each time the id changes, and the
   last run after the loop. The walk starts at the second id: at the first,
   the id compared is its own and nothing happens.
   */
  method DrawRuns(ids: seq<TextureId>, tm: TextureManager) returns (calls: seq<DrawCall>)
    ensures calls == Drawn(Runs(ids), tm)
  {
    if |ids| == 0 {
      return [];
    }
    var last := ids[0];
    var start := 0;
    calls := [];
    var num := 1;
    WalkStart(ids, tm);
    while num < |ids|
      invariant Walked(ids, tm, num, last, start, calls)
      decreases |ids| - num
    {
      last, start, calls := WalkStep(ids, tm, num, last, start, calls);
      num := num + 1;
    }
    WalkEnd(ids, tm, last, start, calls);
    calls := calls + DrawOf(Run(last, start, |ids|), tm);
  }

  /**
   One iteration of the walk: when the id at num differs from the open run's,
   the open run is closed, with its draw, and a run opens at num.
   */
  method WalkStep(ids: seq<TextureId>, tm: TextureManager, num: nat, last: TextureId, start: nat, calls: seq<DrawCall>)
    returns (last': TextureId, start': nat, calls': seq<DrawCall>)
    requires Walked(ids, tm, num, last, start, calls) && num < |ids|
    ensures Walked(ids, tm, num + 1, last', start', calls')
  {
    if last != ids[num] {
      WalkClose(ids, tm, num, last, start, calls);
      calls' := calls + DrawOf(Run(last, start, num), tm);
      start' := num;
      last' := ids[num];
    } else {
      WalkGrow(ids, tm, num, last, start, calls);
      last', start', calls' := last, start, calls;
    }
  }

  /** Each draw covers a run of its own id, drawn with that id's loaded texture. */
  lemma DrawsWithinRuns(ids: seq<TextureId>, tm: TextureManager)
    ensures var calls := Drawn(Runs(ids), tm);
      && (forall j :: 0 <= j < |calls| ==>
            && calls[j].start < calls[j].end <= |ids|
            && calls[j].id in tm.textures && calls[j].texture == tm.textures[calls[j].id])
      && (forall j, i :: 0 <= j < |calls| && calls[j].start <= i < calls[j].end ==> ids[i] == calls[j].id)
  {
    RunsTile(ids);
    var ks := DrawnSources(Runs(ids), tm);
  }

  /** Draws are in order and disjoint; on sorted ids there is at most one draw per id. */
  lemma DrawsOrdered(ids: seq<TextureId>, tm: TextureManager)
    ensures var calls := Drawn(Runs(ids), tm);
      && (forall j, l :: 0 <= j < l < |calls| ==> calls[j].end <= calls[l].start)
      && ((forall i, j :: 0 <= i < j < |ids| ==> ids[i] <= ids[j]) ==>
            forall j, l :: 0 <= j < l < |calls| ==> calls[j].id < calls[l].id)
  {
    var runs := Runs(ids);
    var calls := Drawn(runs, tm);
    RunsTile(ids);
    var ks := DrawnSources(runs, tm);
    forall j, l | 0 <= j < l < |calls|
      ensures calls[j].end <= calls[l].start
    {
      TilesOrdered(ids, runs, ks[j], ks[l]);
    }
    if forall i, j :: 0 <= i < j < |ids| ==> ids[i] <= ids[j] {
      SortedRunsDistinct(ids);
    }
  }

  /** Position i lies in the range of some draw. */
  ghost predicate Covered(calls: seq<DrawCall>, i: nat)
  {
    exists j :: 0 <= j < |calls| && calls[j].start <= i < calls[j].end
  }

  /**
   An instance is drawn exactly when its texture is loaded: the start of a run
   whose texture is missing still moves past it, so no other draw covers it.
   */
  lemma DrawnIffLoaded(ids: seq<TextureId>, tm: TextureManager)
    ensures forall i :: 0 <= i < |ids| ==> (ids[i] in tm.textures <==> Covered(Drawn(Runs(ids), tm), i))
  {
    forall i | 0 <= i < |ids|
      ensures ids[i] in tm.textures <==> Covered(Drawn(Runs(ids), tm), i)
    {
      DrawnAt(ids, tm, i);
    }
  }

  lemma DrawnAt(ids: seq<TextureId>, tm: TextureManager, i: nat)
    requires i < |ids|
    ensures ids[i] in tm.textures <==> Covered(Drawn(Runs(ids), tm), i)
  {
    var runs := Runs(ids);
    var calls := Drawn(runs, tm);
    var ks := DrawnSources(runs, tm);
    if ids[i] in tm.textures {
      var k := RunOf(ids, i);
      RunUniform(ids, k, i);
      assert k in ks;
      var j :| 0 <= j < |ks| && ks[j] == k;
      assert calls[j].start <= i < calls[j].end;
    }
    if Covered(calls, i) {
      var j :| 0 <= j < |calls| && calls[j].start <= i < calls[j].end;
      RunUniform(ids, ks[j], i);
    }
  }

  /**
   How draws cover a sequence of ids: every draw covers positions of its own
   id only, with that id's loaded texture; the draws are in order, disjoint
   and one per id; and a position is drawn exactly when its id's texture is
   loaded.
   */
  ghost predicate DrawsCover(ids: seq<TextureId>, calls: seq<DrawCall>, tm: TextureManager)
  {
    && (forall j :: 0 <= j < |calls| ==>
          && calls[j].start < calls[j].end <= |ids|
          && calls[j].id in tm.textures && calls[j].texture == tm.textures[calls[j].id])
    && (forall j, i :: 0 <= j < |calls| && calls[j].start <= i < calls[j].end ==> ids[i] == calls[j].id)
    && (forall j, l :: 0 <= j < l < |calls| ==> calls[j].end <= calls[l].start && calls[j].id < calls[l].id)
    && (forall i :: 0 <= i < |ids| ==> (ids[i] in tm.textures <==> Covered(calls, i)))
  }

  /**
   What the texture renderer draws, over the texture ids of the sorted
   instances: no instances, no draw; otherwise the draws cover the ids as
   above, in particular one draw per loaded id.
   */
  lemma TexturedDrawsCover(instances: seq<TextureInstance>, tm: TextureManager)
    ensures var keys := Keys(SortByKey(instances));
      var calls := Drawn(Runs(keys), tm);
      && (|instances| == 0 ==> calls == [])
      && DrawsCover(keys, calls, tm)
  {
    var sorted := SortByKey(instances);
    var keys := Keys(sorted);
    assert forall i, j :: 0 <= i < j < |keys| ==> keys[i] <= keys[j];
    SortedDrawsCover(keys, tm);
  }

  /** Any sorted sequence of ids is covered by the draws of its runs. */
  lemma SortedDrawsCover(ids: seq<TextureId>, tm: TextureManager)
    requires forall i, j :: 0 <= i < j < |ids| ==> ids[i] <= ids[j]
    ensures DrawsCover(ids, Drawn(Runs(ids), tm), tm)
  {
    DrawsWithinRuns(ids, tm);
    DrawsOrdered(ids, tm);
    DrawnIffLoaded(ids, tm);
  }
}
