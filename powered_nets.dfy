/** The indexable networks of models.py: Powered_Sequential and Powered_Model,
    which hand their own layer list to the indexer, and DetectorNet, a
    Powered_Model whose layers are its input stages followed by one predictor
    per input, run branch by branch. */
module PoweredNets {
  import opened Types
  import opened NetworkIndexer
  import IndexerProperties

  /** An indexable network. Both kinds own a layer list fixed at construction
      (Keras fills it: in chain order for a Sequential, in wiring order for a
      Model) and behave the same once built. */
  datatype Powered<!T> =
    | PoweredSequential(layers: seq<Layer<T>>)
    | PoweredModel(layers: seq<Layer<T>>)

  /** __len__: the number of layers, which is also the range of int keys that
      subscript without raising (from -len up to len - 1). */
  function Length<T>(net: Powered<T>): (n: nat)
    ensures n == |net.layers|
    ensures forall i :: GetItem(net.layers, Position(i)).Ok? <==> -(n as int) <= i < n
  {
    |net.layers|
  }

  /** __getitem__: subscripting the network subscripts its layer list. */
  function Subscript<T>(net: Powered<T>, key: Key): (r: Result<Item<T>>)
    ensures r == GetItem(net.layers, key)
    ensures key.Position? && r.Ok? ==> r.value.Single? && r.value.layer in net.layers
    ensures key.Name? && r.Ok? ==> r.value.Single? && r.value.layer.name == key.s
    ensures r.Ok? && r.value.Sequential? ==> |r.value.layers| > 1
  {
    GetItem(net.layers, key)
  }

  /** call: partial execution over the network's own layers. Without keys every
      layer runs, in order. */
  method Call<T>(net: Powered<T>, inputs: T, startLayer: Option<Key>, lastLayer: Option<Key>)
    returns (r: Result<Option<T>>, invoked: seq<int>)
    ensures r == Forward(net.layers, inputs, startLayer, lastLayer)
    ensures startLayer.None? && lastLayer.None? ==>
      r == Ok(if |net.layers| == 0 then None else Some(Chain(net.layers, inputs)))
    ensures r.Err? ==> invoked == []
    ensures r.Ok? ==> forall l :: l in invoked ==> 0 <= l < |net.layers|
    ensures r.Ok? ==> forall l :: l in invoked <==>
      0 <= l && ResolveBounds(net.layers, startLayer, lastLayer).value.0 <= l
             && l <= ResolveBounds(net.layers, startLayer, lastLayer).value.1
    ensures forall j, k :: 0 <= j < k < |invoked| ==> invoked[j] < invoked[k]
  {
    r, invoked := IndexableCall(net.layers, inputs, startLayer, lastLayer);
  }

  /** A detector: `model` is the Powered_Model Keras builds from the inputs and
      the predictor outputs; `inputLayers` and `predictors` are the two lists it
      was built from, kept as fields. */
  datatype DetectorNet<!T> = DetectorNet(model: Powered<T>, inputLayers: seq<Layer<T>>, predictors: seq<Layer<T>>)

  /** How Keras lays out a detector's layers: a Model whose layer list is the
      input stages followed by the predictors, one predictor per input. */
  ghost predicate Wired<T>(net: DetectorNet<T>)
  {
    && net.model.PoweredModel?
    && |net.inputLayers| == |net.predictors|
    && net.model.layers == net.inputLayers + net.predictors
  }

  /** __len__ of a detector: two layers per branch once wired. */
  function DetectorLength<T>(net: DetectorNet<T>): (n: nat)
    ensures n == Length(net.model)
    ensures Wired(net) ==> n == 2 * |net.predictors|
  {
    |net.model.layers|
  }

  /** output_shape: the predictors' output shapes, in predictor order; once wired,
      entry i is the shape of the layer that ends branch i. */
  function OutputShape<T>(net: DetectorNet<T>): (shapes: seq<Shape>)
    ensures |shapes| == |net.predictors|
    ensures forall i :: 0 <= i < |shapes| ==> shapes[i] == net.predictors[i].outputShape
    ensures Wired(net) ==> forall i :: 0 <= i < |shapes| ==>
      shapes[i] == net.model.layers[i + |net.inputLayers|].outputShape
  {
    seq(|net.predictors|, i requires 0 <= i < |net.predictors| => net.predictors[i].outputShape)
  }

  /** DetectorNet.call: branch i applies layer i to inputs[i] and forwards the
      result through the single layer at i + len(inputLayers). It raises
      IndexError as soon as one of those positions is past the layer list. */
  method DetectorCall<T>(net: DetectorNet<T>, inputs: seq<T>) returns (r: Result<seq<T>>)
    ensures r.Ok? <==> |inputs| == 0 || |inputs| + |net.inputLayers| <= |net.model.layers|
    ensures r.Err? ==> r.error == IndexError
    ensures r.Ok? ==> |r.value| == |inputs|
    ensures r.Ok? ==> forall i :: 0 <= i < |inputs| ==>
      r.value[i] == net.model.layers[i + |net.inputLayers|].apply(net.model.layers[i].apply(inputs[i]))
    ensures Wired(net) ==> (r.Ok? <==> |inputs| <= |net.predictors|)
    ensures Wired(net) && r.Ok? ==> forall i :: 0 <= i < |inputs| ==>
      r.value[i] == net.predictors[i].apply(net.inputLayers[i].apply(inputs[i]))
  {
    var layers := net.model.layers;
    var offset := |net.inputLayers|;
    var outputs: seq<T> := [];
    var i := 0;
    while i < |inputs|
      invariant 0 <= i <= |inputs|
      invariant i == 0 || i + offset <= |layers|
      invariant |outputs| == i
      invariant forall k :: 0 <= k < i ==>
        outputs[k] == layers[k + offset].apply(layers[k].apply(inputs[k]))
    {
      if i >= |layers| {
        return Err(IndexError);
      }
      var inPredict := layers[i].apply(inputs[i]);
      var outLayer := i + offset;
      var y, _ := Call(net.model, inPredict, Some(Position(outLayer)), Some(Position(outLayer)));
      IndexerProperties.ForwardAtPosition(layers, inPredict, outLayer);
      if y.Err? {
        return Err(y.error);
      }
      outputs := outputs + [y.value.value];
      i := i + 1;
    }
    if Wired(net) {
      forall k | 0 <= k < |inputs|
        ensures outputs[k] == net.predictors[k].apply(net.inputLayers[k].apply(inputs[k]))
      {
        assert layers[k] == net.inputLayers[k] && layers[k + offset] == net.predictors[k];
      }
    }
    return Ok(outputs);
  }
}
