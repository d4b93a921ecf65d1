/** Properties of the indexer that relate several calls: how partial runs compose,
    what a one-layer run computes, and how int, negative and name keys relate. */
module IndexerProperties {
  import opened Types
  import opened NetworkIndexer

  /** Running `a` and then `b` is running `a + b`. */
  lemma {:induction false} ChainAppend<T>(a: seq<Layer<T>>, b: seq<Layer<T>>, x: T)
    ensures Chain(a + b, x) == Chain(b, Chain(a, x))
    decreases |b|
  {
    if |b| > 0 {
      var b' := b[..|b| - 1];
      assert (a + b)[..|a + b| - 1] == a + b';
      ChainAppend(a, b', x);
    } else {
      assert a + b == a;
    }
  }

  /** Forwarding from `s` to `m` and then from `m + 1` to `e` gives what forwarding
      from `s` to `e` in one call gives: a network can be run in pieces. */
  lemma ForwardSplit<T>(layers: seq<Layer<T>>, x: T, s: int, m: int, e: int)
    requires 0 <= s <= m < e < |layers|
    ensures Forward(layers, x, Some(Position(s)), Some(Position(m))).Ok?
    ensures Forward(layers, x, Some(Position(s)), Some(Position(m))).value.Some?
    ensures Forward(layers, Forward(layers, x, Some(Position(s)), Some(Position(m))).value.value,
                    Some(Position(m + 1)), Some(Position(e)))
         == Forward(layers, x, Some(Position(s)), Some(Position(e)))
  {
    assert layers[s..e + 1] == layers[s..m + 1] + layers[m + 1..e + 1];
    ChainAppend(layers[s..m + 1], layers[m + 1..e + 1], x);
  }

  /** Forwarding with start == last == o: outside the upper bound it raises
      IndexError; at a valid position it applies that one layer; at a negative
      position (never normalised) it calls nothing and returns no output. */
  lemma ForwardAtPosition<T>(layers: seq<Layer<T>>, x: T, o: int)
    ensures Forward(layers, x, Some(Position(o)), Some(Position(o))) ==
      if o >= |layers| then Err(IndexError)
      else if o < 0 then Ok(None)
      else Ok(Some(layers[o].apply(x)))
  {
    if 0 <= o < |layers| {
      ChainStep(layers, o, o, x);
    }
  }

  /** Forwarding between two valid positions in order chains exactly the layers
      from the start through the last, both included. */
  lemma ForwardRange<T>(layers: seq<Layer<T>>, x: T, s: int, e: int)
    requires 0 <= s <= e < |layers|
    ensures Forward(layers, x, Some(Position(s)), Some(Position(e))) == Ok(Some(Chain(layers[s..e + 1], x)))
  {
    assert ResolveBounds(layers, Some(Position(s)), Some(Position(e))) == Ok((s, e));
    assert PartialRun(layers, x, s, e) == Some(Chain(layers[s..e + 1], x));
  }

  /** A negative start key is returned unchanged, so it skips no layer: the run
      starts at layer 0 exactly as with no start key. */
  lemma NegativeStartRunsFromFirstLayer<T>(layers: seq<Layer<T>>, x: T, k: int, lastLayer: Option<Key>)
    requires k < 0
    ensures Forward(layers, x, Some(Position(k)), lastLayer) == Forward(layers, x, None, lastLayer)
  {
  }

  /** When the resolved start lies after the resolved last, no layer runs and the
      result is None rather than an exception. */
  lemma ForwardBackwardsRange<T>(layers: seq<Layer<T>>, x: T, s: int, e: int)
    requires e < s < |layers|
    ensures Forward(layers, x, Some(Position(s)), Some(Position(e))) == Ok(None)
  {
  }

  /** With no keys, forwarding runs the same layers as with the explicit keys 0 and len - 1. */
  lemma ForwardDefaultsAreFullRange<T>(layers: seq<Layer<T>>, x: T)
    requires |layers| > 0
    ensures Forward(layers, x, None, None) ==
            Forward(layers, x, Some(Position(0)), Some(Position(|layers| - 1)))
  {
    assert layers[0..|layers|] == layers;
  }

  /** A name key forwards exactly as the int key of the last layer with that name. */
  lemma ForwardByName<T>(layers: seq<Layer<T>>, x: T, a: string, b: string)
    requires LastMatch(layers, a).Some? && LastMatch(layers, b).Some?
    ensures Forward(layers, x, Some(Name(a)), Some(Name(b))) ==
            Forward(layers, x, Some(Position(LastMatch(layers, a).value)),
                               Some(Position(LastMatch(layers, b).value)))
  {
  }

  /** Any start key that resolves to p forwards as the int start key p, whatever
      the last key: a name start is its last match. */
  lemma StartKeyAsPosition<T>(layers: seq<Layer<T>>, x: T, k: Key, p: int, lastLayer: Option<Key>)
    requires LayerIndex(layers, k) == Ok(p)
    ensures Forward(layers, x, Some(k), lastLayer) == Forward(layers, x, Some(Position(p)), lastLayer)
  {
    assert LayerIndex(layers, Position(p)) == Ok(p);
  }

  /** Any last key that resolves to p forwards as the int last key p, whatever
      the start key: a name last key is its last match. */
  lemma LastKeyAsPosition<T>(layers: seq<Layer<T>>, x: T, startLayer: Option<Key>, k: Key, p: int)
    requires LayerIndex(layers, k) == Ok(p)
    ensures Forward(layers, x, startLayer, Some(k)) == Forward(layers, x, startLayer, Some(Position(p)))
  {
    assert LayerIndex(layers, Position(p)) == Ok(p);
  }

  /** A non-negative int key and its negative alias i - len subscript the same layer. */
  lemma NegativeKeyAlias<T>(layers: seq<Layer<T>>, i: int)
    requires 0 <= i < |layers|
    ensures GetItem(layers, Position(i)) == GetItem(layers, Position(i - |layers|))
    ensures GetItem(layers, Position(i)) == Ok(Single(layers[i]))
  {
  }

  /** Below -len the position resolver still accepts an int key (there is no lower
      bound check); only the list subscript that follows raises. */
  lemma NoLowerBoundCheck<T>(layers: seq<Layer<T>>, k: int)
    requires k < -|layers|
    ensures LayerIndex(layers, Position(k)) == Ok(k)
    ensures GetItem(layers, Position(k)) == Err(IndexError)
  {
  }

  /** A slice between two int positions inside the list is the sub-list between
      them, wrapped into a Sequential exactly when it has more than one layer. */
  lemma RangeByPositions<T>(layers: seq<Layer<T>>, a: int, b: int)
    requires 0 <= a <= b <= |layers|
    ensures GetItem(layers, Range(At(a), At(b))) ==
      Ok(if b - a > 1 then Sequential(layers[a..b]) else Plain(layers[a..b]))
  {
    assert GetItem(layers, Range(At(a), At(b))) == RangeItem(layers, At(a), At(b));
    assert SliceStart(layers, At(a)) == Ok(Some(a));
    assert SliceStop(layers, At(b)) == Ok(Some(b));
    assert ListSlice(layers, Some(a), Some(b)) == layers[a..b];
  }

  /** Subscripting with a slice key takes the slice branch. Dafny sees this by
      unfolding GetItem; the slice lemmas below call it, and spell out their
      intermediate bounds, to keep each proof a few small, stable steps. */
  lemma RangeKeyIsRangeItem<T>(layers: seq<Layer<T>>, start: Bound, stop: Bound)
    ensures GetItem(layers, Range(start, stop)) == RangeItem(layers, start, stop)
  {
  }

  /** Name bounds that resolve to i and j slice as the int bounds i and j + 1. */
  lemma NamedBounds<T>(layers: seq<Layer<T>>, a: string, b: string, i: int, j: int)
    requires LayerIndex(layers, Name(a)) == Ok(i) && LayerIndex(layers, Name(b)) == Ok(j)
    ensures RangeItem(layers, Named(a), Named(b)) == RangeItem(layers, At(i), At(j + 1))
  {
    assert SliceStart(layers, Named(a)) == Ok(Some(i));
    assert SliceStop(layers, Named(b)) == Ok(Some(j + 1));
  }

  /** A slice between two names is the int slice from the start's position to one
      past the stop's position. */
  lemma RangeByName<T>(layers: seq<Layer<T>>, a: string, b: string, i: int, j: int)
    requires LayerIndex(layers, Name(a)) == Ok(i) && LayerIndex(layers, Name(b)) == Ok(j)
    ensures GetItem(layers, Range(Named(a), Named(b))) == GetItem(layers, Range(At(i), At(j + 1)))
  {
    NamedBounds(layers, a, b, i, j);
    RangeKeyIsRangeItem(layers, Named(a), Named(b));
    RangeKeyIsRangeItem(layers, At(i), At(j + 1));
  }

  /** A slice bound left out is 0 at the start, whatever the stop. */
  lemma AbsentStartIsZero<T>(layers: seq<Layer<T>>, stop: Bound)
    ensures GetItem(layers, Range(Absent, stop)) == GetItem(layers, Range(At(0), stop))
  {
    RangeKeyIsRangeItem(layers, Absent, stop);
    RangeKeyIsRangeItem(layers, At(0), stop);
  }

  /** A slice bound left out is len at the stop, whatever the start. */
  lemma AbsentStopIsLength<T>(layers: seq<Layer<T>>, start: Bound)
    ensures GetItem(layers, Range(start, Absent)) == GetItem(layers, Range(start, At(|layers|)))
  {
    RangeKeyIsRangeItem(layers, start, Absent);
    RangeKeyIsRangeItem(layers, start, At(|layers|));
  }

  /** A name start slices as the int start of its last match, whatever the stop. */
  lemma NamedStartIsPosition<T>(layers: seq<Layer<T>>, a: string, stop: Bound, i: int)
    requires LayerIndex(layers, Name(a)) == Ok(i)
    ensures GetItem(layers, Range(Named(a), stop)) == GetItem(layers, Range(At(i), stop))
  {
    assert SliceStart(layers, Named(a)) == Ok(Some(i));
    RangeKeyIsRangeItem(layers, Named(a), stop);
    RangeKeyIsRangeItem(layers, At(i), stop);
  }

  /** A name stop slices as the int stop one past its last match, whatever the
      start: the named layer is part of the slice. */
  lemma NamedStopIsPositionPlusOne<T>(layers: seq<Layer<T>>, start: Bound, b: string, j: int)
    requires LayerIndex(layers, Name(b)) == Ok(j)
    ensures GetItem(layers, Range(start, Named(b))) == GetItem(layers, Range(start, At(j + 1)))
  {
    assert SliceStop(layers, Named(b)) == Ok(Some(j + 1));
    RangeKeyIsRangeItem(layers, start, Named(b));
    RangeKeyIsRangeItem(layers, start, At(j + 1));
  }

  /** `net[a:"b"]` for an int start a at or before the last layer named b holds
      layers a through that layer, both included. */
  lemma UpToNameIncludesStop<T>(layers: seq<Layer<T>>, a: int, b: string, j: int)
    requires LayerIndex(layers, Name(b)) == Ok(j)
    requires 0 <= a <= j
    ensures GetItem(layers, Range(At(a), Named(b))).Ok?
    ensures GetItem(layers, Range(At(a), Named(b))).value.layers == layers[a..j + 1]
    ensures layers[j] in GetItem(layers, Range(At(a), Named(b))).value.layers
  {
    NamedStopIsPositionPlusOne(layers, At(a), b, j);
    RangeByPositions(layers, a, j + 1);
    assert layers[a..j + 1][j - a] == layers[j];
  }

  /** `net[:"b"]` holds every layer up to and including the last layer named b. */
  lemma PrefixToNameIncludesStop<T>(layers: seq<Layer<T>>, b: string, j: int)
    requires LayerIndex(layers, Name(b)) == Ok(j)
    ensures GetItem(layers, Range(Absent, Named(b))).Ok?
    ensures GetItem(layers, Range(Absent, Named(b))).value.layers == layers[..j + 1]
    ensures layers[j] in GetItem(layers, Range(Absent, Named(b))).value.layers
  {
    AbsentStartIsZero(layers, Named(b));
    UpToNameIncludesStop(layers, 0, b, j);
    assert layers[0..j + 1] == layers[..j + 1];
  }

  /** `net["a":]` holds every layer from the last layer named a to the end. */
  lemma SuffixFromName<T>(layers: seq<Layer<T>>, a: string, i: int)
    requires LayerIndex(layers, Name(a)) == Ok(i)
    ensures GetItem(layers, Range(Named(a), Absent)).Ok?
    ensures GetItem(layers, Range(Named(a), Absent)).value.layers == layers[i..]
    ensures layers[i] in GetItem(layers, Range(Named(a), Absent)).value.layers
  {
    NamedStartIsPosition(layers, a, Absent, i);
    AbsentStopIsLength(layers, At(i));
    RangeByPositions(layers, i, |layers|);
    assert layers[i..|layers|][0] == layers[i];
  }

  /** A slice between two names in order holds the layers from the start's
      position through the stop's position: the layer named by the stop is included. */
  lemma RangeByNameIncludesStop<T>(layers: seq<Layer<T>>, a: string, b: string, i: int, j: int)
    requires LayerIndex(layers, Name(a)) == Ok(i) && LayerIndex(layers, Name(b)) == Ok(j)
    requires i <= j
    ensures GetItem(layers, Range(Named(a), Named(b))).Ok?
    ensures GetItem(layers, Range(Named(a), Named(b))).value.layers == layers[i..j + 1]
    ensures layers[j] in GetItem(layers, Range(Named(a), Named(b))).value.layers
  {
    RangeByName(layers, a, b, i, j);
    RangeByPositions(layers, i, j + 1);
    assert layers[i..j + 1][j - i] == layers[j];
  }
}
