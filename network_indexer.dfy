/** The indexing and partial-execution engine shared by every indexable network
    (class Network_Indexer of models.py): resolving a key to a layer position,
    subscripting a layer list, and forwarding an input through a contiguous
    run of layers. */
module NetworkIndexer {
  import opened Types

  // ---------------------------------------------------------------------------
  // Resolving a key to a position (get_layer_index)
  // ---------------------------------------------------------------------------

  /** The position of the LAST layer called `name`, if there is one: the name scan
      visits every layer and keeps overwriting its answer. */
  function LastMatch<T>(layers: seq<Layer<T>>, name: string): (r: Option<nat>)
    ensures r.None? <==> forall l :: 0 <= l < |layers| ==> layers[l].name != name
    ensures r.Some? ==> r.value < |layers| && layers[r.value].name == name
    ensures r.Some? ==> forall l :: r.value < l < |layers| ==> layers[l].name != name
    decreases |layers|
  {
    if |layers| == 0 then None
    else if layers[|layers| - 1].name == name then Some(|layers| - 1)
    else LastMatch(layers[..|layers| - 1], name)
  }

  /** The position a key resolves to. An int key is only checked against the upper
      bound and is returned as it is, negative or not. */
  function LayerIndex<T>(layers: seq<Layer<T>>, key: Key): (r: Result<int>)
    ensures r.Ok? ==> r.value < |layers|
    ensures key.Position? ==> (r.Ok? <==> key.i < |layers|)
    ensures key.Position? && r.Ok? ==> r.value == key.i
    ensures key.Position? && r.Err? ==> r.error == IndexError
    ensures key.Name? && r.Ok? ==> 0 <= r.value && layers[r.value].name == key.s
    ensures key.Name? && r.Ok? ==> forall l :: r.value < l < |layers| ==> layers[l].name != key.s
    ensures key.Name? && r.Err? ==> r.error == ValueError
    ensures key.Name? && r.Err? ==> forall l :: 0 <= l < |layers| ==> layers[l].name != key.s
    ensures key.Range? || key.Unsupported? ==> r == Err(TypeError)
  {
    match key
    case Position(k) => if k >= |layers| then Err(IndexError) else Ok(k)
    case Name(s) =>
      var found := LastMatch(layers, s);
      if found.None? then Err(ValueError) else Ok(found.value)
    case _ => Err(TypeError)
  }

  /** get_layer_index: the int branch computes the normalised position of a negative
      key and then overwrites it with the key itself; the name branch scans all layers. */
  method GetLayerIndex<T>(layers: seq<Layer<T>>, key: Key) returns (r: Result<int>)
    ensures r == LayerIndex(layers, key)
  {
    match key {
      case Position(k) =>
        if k >= |layers| {
          return Err(IndexError);
        }
        var index := k;
        if k < 0 {
          index := |layers| + k;
        }
        index := k;
        return Ok(index);
      case Name(s) =>
        var index: Option<nat> := None;
        var l := 0;
        while l < |layers|
          invariant 0 <= l <= |layers|
          invariant index == LastMatch(layers[..l], s)
        {
          assert layers[..l + 1][..l] == layers[..l];
          if layers[l].name == s {
            index := Some(l);
          }
          l := l + 1;
        }
        assert layers[..l] == layers;
        if index.None? {
          return Err(ValueError);
        }
        return Ok(index.value);
      case _ =>
        return Err(TypeError);
    }
  }

  // ---------------------------------------------------------------------------
  // Subscripting (get_item)
  // ---------------------------------------------------------------------------

  /** Python's `layers[i]`: a negative i counts from the end; outside [-len, len) it raises. */
  function ListIndex<T>(layers: seq<Layer<T>>, i: int): Result<Layer<T>>
  {
    if i < -|layers| || i >= |layers| then Err(IndexError)
    else if i < 0 then Ok(layers[|layers| + i])
    else Ok(layers[i])
  }

  /** How Python normalises one slice bound: None takes the default, a negative
      bound counts from the end, and the result is clamped into [0, len]. */
  function SliceBound(b: Option<int>, len: nat, default: nat): (r: nat)
    requires default <= len
    ensures r <= len
  {
    match b
    case None => default
    case Some(i) =>
      if i < 0 then (if i + len < 0 then 0 else i + len)
      else if i > len then len
      else i
  }

  /** Python's `layers[start:stop]` (no step). */
  function ListSlice<T>(layers: seq<Layer<T>>, start: Option<int>, stop: Option<int>): seq<Layer<T>>
  {
    var lo := SliceBound(start, |layers|, 0);
    var hi := SliceBound(stop, |layers|, |layers|);
    if lo < hi then layers[lo..hi] else []
  }

  /** The start of a slice key: a name resolves to its position. */
  function SliceStart<T>(layers: seq<Layer<T>>, b: Bound): Result<Option<int>>
  {
    match b
    case Absent => Ok(None)
    case At(p) => Ok(Some(p))
    case Named(s) => var i :- LayerIndex(layers, Name(s)); Ok(Some(i))
  }

  /** The stop of a slice key: a name resolves to ONE PAST its position, so that
      the named layer is part of the slice. */
  function SliceStop<T>(layers: seq<Layer<T>>, b: Bound): Result<Option<int>>
  {
    match b
    case Absent => Ok(None)
    case At(p) => Ok(Some(p))
    case Named(s) => var i :- LayerIndex(layers, Name(s)); Ok(Some(i + 1))
  }

  /** The slice branch of get_item: resolve name bounds, take the Python slice,
      and wrap it into a Sequential when it holds more than one layer. */
  function RangeItem<T>(layers: seq<Layer<T>>, start: Bound, stop: Bound): Result<Item<T>>
  {
    var lo :- SliceStart(layers, start);
    var hi :- SliceStop(layers, stop);
    var items := ListSlice(layers, lo, hi);
    if |items| > 1 then Ok(Sequential(items)) else Ok(Plain(items))
  }

  /** get_item. */
  function GetItem<T>(layers: seq<Layer<T>>, key: Key): (r: Result<Item<T>>)
    ensures key.Position? ==> (r.Ok? <==> -|layers| <= key.i < |layers|)
    ensures key.Position? && r.Ok? ==>
      r.value == Single(layers[if key.i < 0 then |layers| + key.i else key.i])
    ensures key.Name? ==> (r.Ok? <==> LastMatch(layers, key.s).Some?)
    ensures key.Name? && r.Ok? ==>
      LastMatch(layers, key.s).Some? && r.value == Single(layers[LastMatch(layers, key.s).value])
    ensures key.Range? ==>
      (r.Ok? <==> (key.start.Named? ==> LastMatch(layers, key.start.name).Some?) &&
                  (key.stop.Named? ==> LastMatch(layers, key.stop.name).Some?))
    ensures key.Range? && r.Ok? ==> !r.value.Single?
    ensures key.Range? && r.Ok? ==> (r.value.Sequential? <==> |r.value.layers| > 1)
    ensures key.Unsupported? ==> r.Err?
    ensures r.Err? ==> r.error == (if key.Name? || key.Range? then ValueError else IndexError)
  {
    match key
    case Position(_) =>
      var i :- LayerIndex(layers, key);
      var layer :- ListIndex(layers, i);
      Ok(Single(layer))
    case Name(_) =>
      var i :- LayerIndex(layers, key);
      Ok(Single(layers[i]))
    case Range(start, stop) => RangeItem(layers, start, stop)
    case Unsupported => Err(IndexError)
  }

  // ---------------------------------------------------------------------------
  // Partial execution (indexable_call)
  // ---------------------------------------------------------------------------

  /** The output of applying the layers of `fs` one after the other, first to last. */
  function Chain<T>(fs: seq<Layer<T>>, x: T): T
    decreases |fs|
  {
    if |fs| == 0 then x else fs[|fs| - 1].apply(Chain(fs[..|fs| - 1], x))
  }

  /** The resolved (start, last) pair: start defaults to 0, last to len - 1, and a
      given key is resolved through LayerIndex, start first. */
  function ResolveBounds<T>(layers: seq<Layer<T>>, startLayer: Option<Key>, lastLayer: Option<Key>)
    : (r: Result<(int, int)>)
    ensures r.Ok? ==> r.value.1 < |layers|
    ensures startLayer.None? && lastLayer.None? ==> r == Ok((0, |layers| - 1))
    ensures r.Err? <==>
      (startLayer.Some? && LayerIndex(layers, startLayer.value).Err?) ||
      (lastLayer.Some? && LayerIndex(layers, lastLayer.value).Err?)
  {
    var start :- if startLayer.Some? then LayerIndex(layers, startLayer.value) else Ok(0);
    var last :- if lastLayer.Some? then LayerIndex(layers, lastLayer.value) else Ok(|layers| - 1);
    Ok((start, last))
  }

  /** The lowest position the loop of indexable_call invokes: a negative start
      skips nothing. */
  function FirstRun(start: int): nat
  {
    if start < 0 then 0 else start
  }

  /** The result of the loop of indexable_call once start and last are resolved:
      no output when it invokes no layer, else the chained output of layers
      FirstRun(start) .. last. */
  function PartialRun<T>(layers: seq<Layer<T>>, x: T, start: int, last: int): (r: Option<T>)
    requires last < |layers|
    ensures r.None? <==> start > last || last < 0
  {
    var lo := FirstRun(start);
    if lo > last then None else Some(Chain(layers[lo..last + 1], x))
  }

  /** What indexable_call returns, or the exception it raises while resolving its keys. */
  function Forward<T>(layers: seq<Layer<T>>, x: T, startLayer: Option<Key>, lastLayer: Option<Key>)
    : (r: Result<Option<T>>)
    ensures startLayer.None? && lastLayer.None? ==>
      r == Ok(if |layers| == 0 then None else Some(Chain(layers, x)))
  {
    var (start, last) :- ResolveBounds(layers, startLayer, lastLayer);
    assert startLayer.None? && lastLayer.None? && |layers| > 0 ==> layers[0..last + 1] == layers;
    Ok(PartialRun(layers, x, start, last))
  }

  /** One more layer at the end of a run applies after the rest of the run. */
  lemma ChainStep<T>(layers: seq<Layer<T>>, lo: nat, l: nat, x: T)
    requires lo <= l < |layers|
    ensures Chain(layers[lo..l + 1], x) == layers[l].apply(Chain(layers[lo..l], x))
  {
    assert layers[lo..l + 1][..l - lo] == layers[lo..l];
  }

  /** The loop of indexable_call once start and last are resolved: skip every layer
      before `start`, then feed the running value through each layer up to and
      including `last`. `invoked` lists the positions of the layers it calls, in
      the order it calls them. */
  method RunLayers<T>(layers: seq<Layer<T>>, inputs: T, start: int, last: int)
    returns (outputs: Option<T>, invoked: seq<int>)
    requires last < |layers|
    ensures outputs == PartialRun(layers, inputs, start, last)
    ensures forall l :: l in invoked <==> 0 <= l && start <= l <= last
    ensures forall j, k :: 0 <= j < k < |invoked| ==> invoked[j] < invoked[k]
  {
    outputs := None;
    var x := inputs;
    invoked := [];
    ghost var lo := FirstRun(start);
    var l := 0;
    while l < last + 1
      invariant 0 <= l && (l == 0 || l <= last + 1)
      invariant l <= lo ==> outputs.None? && x == inputs && invoked == []
      invariant lo < l ==> outputs == Some(x) && x == Chain(layers[lo..l], inputs)
      invariant lo < l ==> |invoked| == l - lo
      invariant forall k :: 0 <= k < |invoked| ==> invoked[k] == lo + k
    {
      if l < start {
        l := l + 1;
        continue;
      }
      ChainStep(layers, lo, l, inputs);
      outputs := Some(layers[l].apply(x));
      invoked := invoked + [l];
      if l == last {
        break;
      }
      x := outputs.value;
      l := l + 1;
    }
    forall m | 0 <= m && start <= m <= last
      ensures m in invoked
    {
      assert invoked[m - lo] == m;
    }
  }

  /** indexable_call: resolve the start key (default 0) and the last key (default
      len - 1), then run the layers between them. A key that does not resolve
      raises before any layer is called. */
  method IndexableCall<T>(layers: seq<Layer<T>>, inputs: T, startLayer: Option<Key>, lastLayer: Option<Key>)
    returns (r: Result<Option<T>>, invoked: seq<int>)
    ensures r == Forward(layers, inputs, startLayer, lastLayer)
    ensures r.Err? ==> invoked == []
    ensures r.Ok? ==> forall l :: l in invoked <==>
      0 <= l && ResolveBounds(layers, startLayer, lastLayer).value.0 <= l <= ResolveBounds(layers, startLayer, lastLayer).value.1
    ensures forall j, k :: 0 <= j < k < |invoked| ==> invoked[j] < invoked[k]
  {
    var start, last := 0, |layers| - 1;
    if startLayer.Some? {
      var s := GetLayerIndex(layers, startLayer.value);
      if s.Err? {
        return Err(s.error), [];
      }
      start := s.value;
    }
    if lastLayer.Some? {
      var e := GetLayerIndex(layers, lastLayer.value);
      if e.Err? {
        return Err(e.error), [];
      }
      last := e.value;
    }
    assert ResolveBounds(layers, startLayer, lastLayer) == Ok((start, last));
    var outputs;
    outputs, invoked := RunLayers(layers, inputs, start, last);
    r := Ok(outputs);
  }
}
