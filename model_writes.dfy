/**
 * What a sequence of `setBlock` calls does to the store: the writes a
 * builder issues, the block the last write to a position leaves there, and
 * a loop that issues the writes one by one on a model.
 */
module ModelWrites {
  import opened KotlinInt
  import opened Outcomes
  import opened BlockPositions
  import opened BlockTypes
  import opened Regions
  import opened RegionFiles
  import opened CacheLines
  import opened DiskBoundModels

  /** One `setBlock(pos, block)` call. */
  datatype Write = Write(pos: BlockPos, block: BlockType)

  /** Every write is at a height a chunk can hold. */
  predicate InHeight(ws: seq<Write>) {
    forall i :: 0 <= i < |ws| ==> 0 <= ws[i].pos.y < 256
  }

  /** The block the last write to q stores, or none when no write is at q. */
  function LastWrite(ws: seq<Write>, q: BlockPos): Option<BlockType> {
    if |ws| == 0 then None
    else if ws[|ws| - 1].pos == q then Some(ws[|ws| - 1].block)
    else LastWrite(ws[..|ws| - 1], q)
  }

  /**
   * `LastWrite` is none exactly when no write is at q; otherwise it is the
   * block of a write at q that no later write to q follows.
   */
  lemma {:induction false} LastWriteMeaning(ws: seq<Write>, q: BlockPos)
    ensures LastWrite(ws, q).None? <==> forall i :: 0 <= i < |ws| ==> ws[i].pos != q
    ensures LastWrite(ws, q).Some? ==>
              exists i :: 0 <= i < |ws| && ws[i] == Write(q, LastWrite(ws, q).value) &&
                          forall j :: i < j < |ws| ==> ws[j].pos != q
  {
    if |ws| > 0 && ws[|ws| - 1].pos != q {
      var front := ws[..|ws| - 1];
      LastWriteMeaning(front, q);
      assert forall i :: 0 <= i < |front| ==> front[i] == ws[i];
      if LastWrite(ws, q).Some? {
        var i :| 0 <= i < |front| && front[i] == Write(q, LastWrite(ws, q).value) &&
                 forall j :: i < j < |front| ==> front[j].pos != q;
        assert forall j :: i < j < |ws| ==> ws[j].pos != q;
      }
    }
  }

  /** A later batch of writes overrides an earlier one where it writes, and only there. */
  lemma {:induction false} LastWriteAppend(a: seq<Write>, b: seq<Write>, q: BlockPos)
    ensures LastWrite(a + b, q) == if LastWrite(b, q).Some? then LastWrite(b, q) else LastWrite(a, q)
    decreases |b|
  {
    if |b| > 0 {
      var b' := b[..|b| - 1];
      assert (a + b)[..|a + b| - 1] == a + b';
      if b[|b| - 1].pos != q {
        LastWriteAppend(a, b', q);
      }
    } else {
      assert a + b == a;
    }
  }

  /** When every write stores the same block, the last write to q is that block exactly when some write is at q. */
  lemma LastWriteUniform(ws: seq<Write>, b: BlockType, q: BlockPos)
    requires forall i :: 0 <= i < |ws| ==> ws[i].block == b
    ensures LastWrite(ws, q) == if exists i :: 0 <= i < |ws| && ws[i].pos == q then Some(b) else None
  {
    LastWriteMeaning(ws, q);
    if LastWrite(ws, q).Some? {
      var i :| 0 <= i < |ws| && ws[i] == Write(q, LastWrite(ws, q).value);
    }
  }

  /**
   * The model in state (resident', files') is the model in state
   * (resident, files) after the writes `ws` all succeeded: a region that
   * could not be loaded still cannot, one that could still can, and each
   * position holds the block of the last write to it, or what it held.
   */
  ghost predicate Painted(resident': map<RegionIndex, RegionData>, files': Directory,
                          resident: map<RegionIndex, RegionData>, files: Directory, ws: seq<Write>)
    requires Cached(resident') && Cached(resident)
  {
    (forall k :: Stored(resident, files, k).Err? ==> Stored(resident', files', k) == Stored(resident, files, k)) &&
    (forall k :: Stored(resident, files, k).Ok? ==> Stored(resident', files', k).Ok?) &&
    (forall q: BlockPos :: 0 <= q.y < 256 ==>
      WorldCell(resident', files', q) == match LastWrite(ws, q)
                                         case Some(b) => Ok(b.Value())
                                         case None => WorldCell(resident, files, q))
  }

  /** No writes: the model is painted with nothing. */
  lemma PaintedNothing(resident: map<RegionIndex, RegionData>, files: Directory)
    requires Cached(resident)
    ensures Painted(resident, files, resident, files, [])
  {
  }

  /** One more write that stored its block extends the painting by that write. */
  lemma PaintStep(resident'': map<RegionIndex, RegionData>, files'': Directory,
                  resident': map<RegionIndex, RegionData>, files': Directory,
                  resident: map<RegionIndex, RegionData>, files: Directory, ws: seq<Write>, w: Write)
    requires Cached(resident'') && Cached(resident') && Cached(resident) && 0 <= w.pos.y < 256
    requires Painted(resident', files', resident, files, ws)
    requires StoredAfterSet(resident'', files'', resident', files', w.pos, w.block.Value())
    ensures Painted(resident'', files'', resident, files, ws + [w])
  {
    forall q: BlockPos | 0 <= q.y < 256
      ensures WorldCell(resident'', files'', q) == match LastWrite(ws + [w], q)
                                                  case Some(b) => Ok(b.Value())
                                                  case None => WorldCell(resident, files, q)
    {
      WorldAfterSet(resident'', files'', resident', files', w.pos, w.block.Value(), q);
      assert (ws + [w])[..|ws|] == ws;
    }
  }

  /** A step that kept what the model holds keeps the painting. */
  lemma PaintSame(resident'': map<RegionIndex, RegionData>, files'': Directory,
                  resident': map<RegionIndex, RegionData>, files': Directory,
                  resident: map<RegionIndex, RegionData>, files: Directory, ws: seq<Write>)
    requires Cached(resident'') && Cached(resident') && Cached(resident)
    requires Painted(resident', files', resident, files, ws)
    requires SameWorld(resident'', files'', resident', files')
    ensures Painted(resident'', files'', resident, files, ws)
  {
    forall q: BlockPos | 0 <= q.y < 256
      ensures WorldCell(resident'', files'', q) == WorldCell(resident', files', q)
    {
      assert Stored(resident'', files'', RegionIndexOf(q)) == Stored(resident', files', RegionIndexOf(q));
    }
  }

  /** Painting with `a` and then with `b` paints with `a + b`. */
  lemma PaintedAppend(resident'': map<RegionIndex, RegionData>, files'': Directory,
                      resident': map<RegionIndex, RegionData>, files': Directory,
                      resident: map<RegionIndex, RegionData>, files: Directory, a: seq<Write>, b: seq<Write>)
    requires Cached(resident'') && Cached(resident') && Cached(resident)
    requires Painted(resident', files', resident, files, a) && Painted(resident'', files'', resident', files', b)
    ensures Painted(resident'', files'', resident, files, a + b)
  {
    forall q: BlockPos | 0 <= q.y < 256
      ensures WorldCell(resident'', files'', q) == match LastWrite(a + b, q)
                                                  case Some(t) => Ok(t.Value())
                                                  case None => WorldCell(resident, files, q)
    {
      LastWriteAppend(a, b, q);
    }
  }

  /** A prefix of writes at chunk heights is at chunk heights. */
  lemma InHeightPrefix(ws: seq<Write>, i: int)
    requires InHeight(ws) && 0 <= i <= |ws|
    ensures InHeight(ws[..i])
  {
    assert forall j :: 0 <= j < i ==> ws[..i][j] == ws[j];
  }

  /** The writes up to `done` could all reach their regions in the model (resident, files). */
  ghost predicate ReachableUpTo(resident: map<RegionIndex, RegionData>, files: Directory, ws: seq<Write>, done: int)
    requires Cached(resident) && 0 <= done <= |ws|
  {
    forall j :: 0 <= j < done ==> Stored(resident, files, RegionIndexOf(ws[j].pos)).Ok?
  }

  /** One more write that could reach its region extends the reachable prefix. */
  lemma ReachableStep(resident: map<RegionIndex, RegionData>, files: Directory, ws: seq<Write>, i: int)
    requires Cached(resident) && 0 <= i < |ws| && ReachableUpTo(resident, files, ws, i)
    requires Stored(resident, files, RegionIndexOf(ws[i].pos)).Ok?
    ensures ReachableUpTo(resident, files, ws, i + 1)
  {
  }

  /** The prefix as long as the writes is all of them. */
  lemma WholePrefix(ws: seq<Write>, n: int)
    requires n == |ws|
    ensures ws[..n] == ws
  {
  }

  /** The prefix of one more write. */
  lemma PrefixStep(ws: seq<Write>, i: int)
    requires 0 <= i < |ws|
    ensures ws[..i + 1] == ws[..i] + [ws[i]]
  {
  }

  /**
   * Issue the writes in order, as a builder's loops do. The writes before
   * `done` succeeded and paint the model; the loop stops at the first write
   * whose region cannot be loaded, with that region's error, and then the
   * model is painted with the writes before it.
   */
  method WriteAll(model: DiskBoundModel, ws: seq<Write>) returns (r: Outcome, ghost done: int)
    requires model.Valid() && InHeight(ws)
    modifies model`files, model`Resident, model`Regions, model`Arrays, model.clock, model.cache`lines, model.cache`order,
      model.Regions`isChangedAfterCreateLoadOrSave, model.Regions`lastAccessTime, model.Regions`Data, model.Arrays
    ensures model.Valid() && fresh(model.Regions - old(model.Regions)) && fresh(model.Arrays - old(model.Arrays))
    ensures 0 <= done <= |ws| && (r.Pass? <==> done == |ws|)
    ensures old(ReachableUpTo(model.Resident, model.files, ws, done))
    ensures r.Fail? ==> old(Stored(model.Resident, model.files, RegionIndexOf(ws[done].pos))) == Err(r.error)
    ensures Painted(model.Resident, model.files, old(model.Resident), old(model.files), ws[..done])
  {
    var i := 0;
    while i < |ws|
      invariant 0 <= i <= |ws|
      invariant model.Valid() && fresh(model.Regions - old(model.Regions)) && fresh(model.Arrays - old(model.Arrays))
      invariant old(ReachableUpTo(model.Resident, model.files, ws, i))
      invariant Painted(model.Resident, model.files, old(model.Resident), old(model.files), ws[..i])
    {
      label before:
      var o := WriteStep(model, ws[i], ws[..i], old(model.Resident), old(model.files));
      assert forall g :: g in model.Regions && g !in old@before(model.Regions) ==> !old@before(allocated(g));
      assert forall g :: g in model.Arrays && g !in old@before(model.Arrays) ==> !old@before(allocated(g));
      if o.Fail? {
        return o, i;
      }
      ReachableStep(old(model.Resident), old(model.files), ws, i);
      PrefixStep(ws, i);
      i := i + 1;
    }
    assert ws[..i] == ws;
    r, done := Pass, i;
  }

  /**
   * One `setBlock` on a model painted with `ws` since state (resident0,
   * files0): it succeeds exactly when the write's region could be loaded
   * back then, and then extends the painting by the write; otherwise the
   * model holds what it held.
   */
  method WriteStep(model: DiskBoundModel, w: Write, ghost ws: seq<Write>,
                   ghost resident0: map<RegionIndex, RegionData>, ghost files0: Directory) returns (r: Outcome)
    requires model.Valid() && 0 <= w.pos.y < 256 && Cached(resident0)
    requires Painted(model.Resident, model.files, resident0, files0, ws)
    modifies model`files, model`Resident, model`Regions, model`Arrays, model.clock, model.cache`lines, model.cache`order,
      model.Regions`isChangedAfterCreateLoadOrSave, model.Regions`lastAccessTime, model.Regions`Data, model.Arrays
    ensures model.Valid() && fresh(model.Regions - old(model.Regions)) && fresh(model.Arrays - old(model.Arrays))
    ensures r.Pass? <==> Stored(resident0, files0, RegionIndexOf(w.pos)).Ok?
    ensures r.Fail? ==> Stored(resident0, files0, RegionIndexOf(w.pos)) == Err(r.error) &&
                        Painted(model.Resident, model.files, resident0, files0, ws)
    ensures r.Pass? ==> Painted(model.Resident, model.files, resident0, files0, ws + [w])
  {
    var _, o := model.SetBlock(w.pos, w.block);
    if o.Fail? {
      PaintSame(model.Resident, model.files, old(model.Resident), old(model.files), resident0, files0, ws);
    } else {
      PaintStep(model.Resident, model.files, old(model.Resident), old(model.files), resident0, files0, ws, w);
    }
    r := o;
  }
}
