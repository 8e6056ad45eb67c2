/** The two loops every variant of the pipeline is built from, stated once
    over arbitrary blocks, records and sources:
    - `Collect`, the `forEach` over the match blocks of a page that builds a
      record per block and pushes the ones the variant's filter keeps; a
      throw while building any block aborts the pass;
    - `Gather`, the loop over the sources that pushes each source's list
      inside a `try`, so that a failing source adds nothing. */
module Extraction {
  import opened Wrappers

  function Collect<B, M, E>(blocks: seq<B>, build: B -> Result<M, E>, keep: M -> bool): Result<seq<M>, E>
  {
    if blocks == [] then Ok([])
    else
      match Collect(blocks[..|blocks| - 1], build, keep)
      case Err(e) => Err(e)
      case Ok(ms) =>
        match build(blocks[|blocks| - 1])
        case Err(e) => Err(e)
        case Ok(m) => Ok(if keep(m) then ms + [m] else ms)
  }

  /** Once a prefix of the blocks has thrown, the pass ends with that error. */
  lemma {:induction false} CollectErrPersists<B, M, E>(blocks: seq<B>, n: nat, build: B -> Result<M, E>, keep: M -> bool)
    requires n <= |blocks| && Collect(blocks[..n], build, keep).Err?
    ensures Collect(blocks, build, keep) == Collect(blocks[..n], build, keep)
    decreases |blocks| - n
  {
    if n < |blocks| {
      var longer := blocks[..n + 1];
      assert longer[..n] == blocks[..n];
      assert Collect(longer, build, keep) == Collect(blocks[..n], build, keep);
      CollectErrPersists(blocks, n + 1, build, keep);
    } else {
      assert blocks[..n] == blocks;
    }
  }

  /** The pass throws exactly when building some block throws. */
  lemma {:induction false} CollectFails<B, M, E>(blocks: seq<B>, build: B -> Result<M, E>, keep: M -> bool)
    ensures Collect(blocks, build, keep).Err? <==> exists i :: 0 <= i < |blocks| && build(blocks[i]).Err?
  {
    if blocks != [] {
      var init := blocks[..|blocks| - 1];
      CollectFails(init, build, keep);
      if exists i :: 0 <= i < |init| && build(init[i]).Err? {
        var i :| 0 <= i < |init| && build(init[i]).Err?;
        assert build(blocks[i]).Err?;
      }
      if exists i :: 0 <= i < |blocks| && build(blocks[i]).Err? {
        var i :| 0 <= i < |blocks| && build(blocks[i]).Err?;
        if i < |init| { assert build(init[i]).Err?; }
      }
    }
  }

  /** One step of a successful pass: the pass over all but the last block
      succeeded, the last block was built, and its record was pushed when
      kept. */
  lemma CollectLast<B, M, E>(blocks: seq<B>, build: B -> Result<M, E>, keep: M -> bool)
    requires blocks != [] && Collect(blocks, build, keep).Ok?
    ensures Collect(blocks[..|blocks| - 1], build, keep).Ok?
    ensures build(blocks[|blocks| - 1]).Ok?
    ensures var ms, m := Collect(blocks[..|blocks| - 1], build, keep).value, build(blocks[|blocks| - 1]).value;
      Collect(blocks, build, keep).value == if keep(m) then ms + [m] else ms
  {
  }

  /** `idx` gives, for each record of `out`, the block it was built from;
      the indices increase, and every block whose record is kept is among
      them. */
  ghost predicate IndexedBy<B, M, E>(blocks: seq<B>, out: seq<M>, idx: seq<int>,
                                     build: B -> Result<M, E>, keep: M -> bool)
  {
    && |idx| == |out|
    && (forall k :: 0 <= k < |idx| ==>
          && 0 <= idx[k] < |blocks|
          && build(blocks[idx[k]]) == Ok(out[k])
          && keep(out[k]))
    && (forall k, l :: 0 <= k < l < |idx| ==> idx[k] < idx[l])
    && (forall j :: 0 <= j < |blocks| && build(blocks[j]).Ok? && keep(build(blocks[j]).value) ==> j in idx)
  }

  /** When the pass succeeds, its list is the kept records in document
      order. */
  lemma CollectInOrder<B, M, E>(blocks: seq<B>, build: B -> Result<M, E>, keep: M -> bool)
    returns (idx: seq<int>)
    requires Collect(blocks, build, keep).Ok?
    ensures IndexedBy(blocks, Collect(blocks, build, keep).value, idx, build, keep)
  {
    idx := Indices(blocks, build, keep);
    IndicesSound(blocks, build, keep);
    IndicesComplete(blocks, build, keep);
  }

  /** The blocks whose record is built and kept, in increasing order. */
  ghost function Indices<B, M, E>(blocks: seq<B>, build: B -> Result<M, E>, keep: M -> bool): (r: seq<int>)
    ensures forall k :: 0 <= k < |r| ==> 0 <= r[k] < |blocks|
    ensures forall k, l :: 0 <= k < l < |r| ==> r[k] < r[l]
  {
    if blocks == [] then []
    else
      var n := |blocks| - 1;
      var prev := Indices(blocks[..n], build, keep);
      if build(blocks[n]).Ok? && keep(build(blocks[n]).value) then prev + [n] else prev
  }

  lemma {:induction false} IndicesSound<B, M, E>(blocks: seq<B>, build: B -> Result<M, E>, keep: M -> bool)
    requires Collect(blocks, build, keep).Ok?
    ensures var idx, out := Indices(blocks, build, keep), Collect(blocks, build, keep).value;
      && |idx| == |out|
      && forall k :: 0 <= k < |idx| ==> build(blocks[idx[k]]) == Ok(out[k]) && keep(out[k])
  {
    if blocks != [] {
      var n := |blocks| - 1;
      var init := blocks[..n];
      CollectLast(blocks, build, keep);
      IndicesSound(init, build, keep);
      var prev, ms := Indices(init, build, keep), Collect(init, build, keep).value;
      var idx, out := Indices(blocks, build, keep), Collect(blocks, build, keep).value;
      forall k | 0 <= k < |prev|
        ensures build(blocks[idx[k]]) == Ok(out[k])
      {
        assert idx[k] == prev[k] && out[k] == ms[k];
        assert init[prev[k]] == blocks[prev[k]];
      }
    }
  }

  lemma {:induction false} IndicesComplete<B, M, E>(blocks: seq<B>, build: B -> Result<M, E>, keep: M -> bool)
    ensures forall j :: 0 <= j < |blocks| && build(blocks[j]).Ok? && keep(build(blocks[j]).value) ==>
      j in Indices(blocks, build, keep)
  {
    if blocks != [] {
      var n := |blocks| - 1;
      var init := blocks[..n];
      IndicesComplete(init, build, keep);
      forall j | 0 <= j < n && build(blocks[j]).Ok? && keep(build(blocks[j]).value)
        ensures j in Indices(blocks, build, keep)
      {
        assert init[j] == blocks[j];
      }
    }
  }

  /** What one source adds to the aggregate: its list when its pass
      succeeds, nothing when it throws. */
  function Contribution<S, M, E>(source: S, pass: S -> Result<seq<M>, E>): seq<M> {
    match pass(source) case Ok(ms) => ms case Err(_) => []
  }

  function Gather<S, M, E>(sources: seq<S>, pass: S -> Result<seq<M>, E>): seq<M>
  {
    if sources == [] then []
    else Gather(sources[..|sources| - 1], pass) + Contribution(sources[|sources| - 1], pass)
  }

  /** Aggregating two runs of sources is concatenating their aggregates. */
  lemma {:induction false} GatherAppend<S, M, E>(a: seq<S>, b: seq<S>, pass: S -> Result<seq<M>, E>)
    ensures Gather(a + b, pass) == Gather(a, pass) + Gather(b, pass)
    decreases |b|
  {
    if b == [] {
      assert a + b == a;
    } else {
      var b', last := b[..|b| - 1], b[|b| - 1];
      var ab := a + b;
      assert ab[..|ab| - 1] == a + b' && ab[|ab| - 1] == last;
      GatherAppend(a, b', pass);
      var x, y, z := Gather(a, pass), Gather(b', pass), Contribution(last, pass);
      assert Gather(ab, pass) == (x + y) + z;
      assert Gather(b, pass) == y + z;
      assert (x + y) + z == x + (y + z);
    }
  }

  /** Failure isolation: a source that throws contributes nothing, and the
      sources before and after it contribute exactly what they would
      without it. */
  lemma FailureIsolated<S, M, E>(a: seq<S>, s: S, b: seq<S>, pass: S -> Result<seq<M>, E>)
    requires pass(s).Err?
    ensures Gather(a + [s] + b, pass) == Gather(a, pass) + Gather(b, pass)
  {
    assert Gather(a + [s], pass) == Gather(a, pass) by {
      assert (a + [s])[..|a|] == a && (a + [s])[|a|] == s;
    }
    GatherAppend(a + [s], b, pass);
  }

  /** Every aggregated record comes from a source whose pass succeeded. */
  lemma {:induction false} GatherFrom<S, M, E>(sources: seq<S>, pass: S -> Result<seq<M>, E>, m: M)
    requires m in Gather(sources, pass)
    ensures exists i :: 0 <= i < |sources| && pass(sources[i]).Ok? && m in pass(sources[i]).value
  {
    var n := |sources| - 1;
    if m in Gather(sources[..n], pass) {
      GatherFrom(sources[..n], pass, m);
      var i :| 0 <= i < n && pass(sources[..n][i]).Ok? && m in pass(sources[..n][i]).value;
      assert sources[..n][i] == sources[i];
    } else {
      assert m in Contribution(sources[n], pass);
    }
  }
}
