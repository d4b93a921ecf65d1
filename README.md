# Indexable networks of an SSD detector, in Dafny

This project models the composition layer of an SSD object detector built on
Keras (`models.py`). The numeric layers are not modelled. What is modelled is
how a network's ordered list of named layers is addressed and partially run:

- `Network_Indexer.get_layer_index` resolves an int key or a layer name to a position.
- `Network_Indexer.get_item` subscripts the layer list with an int, a name or a slice.
- `Network_Indexer.indexable_call` forwards an input through the layers from a start key to a last key.
- `Powered_Sequential` and `Powered_Model` delegate `__len__`, `__getitem__` and `call` to the indexer.
- `DetectorNet` runs each input branch through its input stage and then through its own predictor.
  It does this by partially executing one layer of the shared layer list.

A layer is a value `Layer(name, apply, outputShape)`, where `apply: T -> T` is
an uninterpreted function on an abstract tensor type `T`. Keys are a tagged
union: `Position(int)`, `Name(string)`, `Range(start, stop)`, or `Unsupported`
for any other Python type. A slice bound is `Absent`, `At(int)` or `Named(string)`.
A Python exception is the `Err` arm of a `Result`, tagged with its class
(`IndexError`, `ValueError`, `TypeError`).

Files:

- `types.dfy` (module `Types`): layers, keys, items and results.
- `network_indexer.dfy` (module `NetworkIndexer`): the indexer.
  - Pure parts are functions: `LastMatch`, `LayerIndex`, `GetItem`, `Forward`.
  - The source's imperative code is methods proved against those functions:
    `GetLayerIndex` (the name scan) and `RunLayers` (the skip/continue/break loop) are the loops;
    `IndexableCall` resolves the two keys and then calls `RunLayers`.
- `indexer_properties.dfy` (module `IndexerProperties`): lemmas that relate several calls.
- `powered_nets.dfy` (module `PoweredNets`): the two indexable network kinds and `DetectorNet`.

The model follows the code. Some of its behaviour is easy to misread:

- A negative int key is NOT normalised to `len + key`. Line 50 of `models.py` computes the normalised value, and line 51 overwrites it with the key.
  So `call(x, start_layer=-1)` runs every layer from 0, not only the last one (`NegativeStartRunsFromFirstLayer`).
  `get_item` still reaches the right layer for keys in `[-len, 0)`, because Python's list subscript counts from the end itself (`NegativeKeyAlias`).
- There is no lower-bound check. A key below `-len` passes `get_layer_index` and fails only in the list subscript of `get_item` (`NoLowerBoundCheck`).
- A start that lies after the last position is not rejected. `indexable_call` invokes nothing and returns `None` (`ForwardBackwardsRange`).
- A slice that holds one layer (or none) is returned as a plain list, not as the bare layer. Only a slice of two or more layers is wrapped into a `Sequential` (models.py:34-36; `GetItem`, `RangeByPositions`).
- `Powered_Model.call` does not run the model's wired graph. Like `Powered_Sequential.call`, it hands `self.layers` to `indexable_call`, which chains them in list order (models.py:135-137; `PoweredNets.Call`).

With duplicate layer names, the last layer with that name wins, as the scan is exhaustive (`LastMatch`).

## Model

| member | source | states |
|---|---|---|
| `NetworkIndexer.LastMatch` | models.py:52-57 | It finds a position exactly when some layer has the name. That position holds the name, and no later layer has it (last match wins). |
| `NetworkIndexer.LayerIndex` | models.py:41-60 | An int key at or past `len` raises IndexError. Any smaller int key, negative included, is returned unchanged. A name resolves to its last position in `[0, len)` and raises ValueError when no layer has it. Any other key raises TypeError. |
| `NetworkIndexer.GetLayerIndex` | models.py:41-60 | The loop (including the dead normalisation of lines 49-51) returns exactly `LayerIndex`. Its loop invariant is the last match among the layers scanned so far. |
| `NetworkIndexer.GetItem` | models.py:24-39 | An int key succeeds iff it lies in `[-len, len)` and yields that layer, counting from the end when negative. A name key succeeds iff the name exists and yields its last layer. A slice key fails only on an unknown name bound. Its result is never a single layer, and it is a `Sequential` exactly when it holds more than one layer. Any other key raises IndexError. |
| `NetworkIndexer.ResolveBounds` | models.py:77-82 | Without keys the bounds are `(0, len - 1)`. A resolved last bound is always below `len`. The call raises iff a given start or last key fails to resolve. |
| `NetworkIndexer.PartialRun` | models.py:83-90 | No output exactly when `start > last` or `last < 0`. |
| `NetworkIndexer.Forward` | models.py:62-90 | Without keys, the output is the chain of all layers in order, or `None` for an empty network. |
| `NetworkIndexer.ChainStep` | models.py:86-89 | Running one more layer applies it to the output of the run so far. |
| `NetworkIndexer.RunLayers` | models.py:83-90 | The skip/continue/break loop returns `PartialRun`. The layers it invokes are exactly the non-negative positions in `[start, last]`, each once, in ascending order. |
| `NetworkIndexer.IndexableCall` | models.py:62-90 | Returns `Forward`. A key that does not resolve raises before any layer is invoked. Otherwise exactly the layers between the resolved bounds are invoked, each once, in ascending order. |
| `IndexerProperties.ChainAppend` | models.py:83-89 | Chaining `a + b` equals chaining `b` after `a`. |
| `IndexerProperties.ForwardSplit` | models.py:78-90 | Forwarding `s..m` and then `m+1..e` equals forwarding `s..e` in one call. |
| `IndexerProperties.ForwardAtPosition` | models.py:78-90 | With `start == last == o`, the call raises IndexError when `o >= len`, returns `layers[o](x)` when `0 <= o < len`, and returns `None` when `o < 0`. |
| `IndexerProperties.ForwardRange` | models.py:78-90 | For valid int keys `0 <= s <= e < len`, the call returns the chain of `layers[s..e]`, both ends included. |
| `IndexerProperties.NegativeStartRunsFromFirstLayer` | models.py:46-51 | A negative start key forwards exactly as no start key. |
| `IndexerProperties.ForwardBackwardsRange` | models.py:83-90 | For valid positions with `last < start`, the call returns `None` and does not raise. |
| `IndexerProperties.ForwardDefaultsAreFullRange` | models.py:78-82 | For a non-empty network, the call with no keys equals the call with keys `0` and `len - 1`. (On an empty network the keyless call returns `None`, while key `0` raises IndexError.) |
| `IndexerProperties.ForwardByName` | models.py:79-82 | Name keys forward exactly as the int keys of the last layers with those names. |
| `IndexerProperties.StartKeyAsPosition` | models.py:78-80 | A start key of any kind that resolves to `p` forwards exactly as the int start key `p`, whatever the last key. |
| `IndexerProperties.LastKeyAsPosition` | models.py:78-82 | A last key of any kind that resolves to `p` forwards exactly as the int last key `p`, whatever the start key. |
| `IndexerProperties.NegativeKeyAlias` | models.py:26-27 | For `0 <= i < len`, subscripting with `i` and with `i - len` gives the same layer, `layers[i]`. |
| `IndexerProperties.NoLowerBoundCheck` | models.py:46-51 | A key below `-len` resolves to itself, and only the subscript raises IndexError. |
| `IndexerProperties.RangeByPositions` | models.py:28-36 | An int slice `[a:b]` with `0 <= a <= b <= len` is `layers[a..b]`. It is wrapped as `Sequential` exactly when `b - a > 1`. |
| `IndexerProperties.NamedBounds` | models.py:30-33 | Name bounds that resolve to `i` and `j` slice exactly as the int bounds `i` and `j + 1`. |
| `IndexerProperties.RangeByName` | models.py:28-34 | When names `A` and `B` resolve to `idx(A)` and `idx(B)`, the slice `[A:B]` equals the int slice from `idx(A)` to `idx(B) + 1`. |
| `IndexerProperties.RangeByNameIncludesStop` | models.py:30-36 | When `idx(A) <= idx(B)`, the slice `[A:B]` succeeds and holds `layers[idx(A) .. idx(B)]` with both ends included, so it contains the layer named `B`. |
| `IndexerProperties.AbsentStartIsZero` | models.py:28-34 | A left-out start slices as `0`, for any stop. |
| `IndexerProperties.AbsentStopIsLength` | models.py:28-34 | A left-out stop slices as `len`, for any start. |
| `IndexerProperties.NamedStartIsPosition` | models.py:30-34 | A name start slices as the int start of its last match, for any stop. |
| `IndexerProperties.NamedStopIsPositionPlusOne` | models.py:32-34 | A name stop slices as one past its last match, for any start, so the named layer is included. |
| `IndexerProperties.UpToNameIncludesStop` | models.py:28-36 | For an int start `a` with `0 <= a <= idx(B)`, `[a:B]` succeeds, holds `layers[a .. idx(B)]` with both ends included, and contains the layer named `B`. |
| `IndexerProperties.PrefixToNameIncludesStop` | models.py:28-36 | `[:B]` succeeds and holds every layer up to and including the last layer named `B`. |
| `IndexerProperties.SuffixFromName` | models.py:28-36 | `[A:]` succeeds and holds every layer from the last layer named `A` to the end. |
| `PoweredNets.Length` | models.py:105-106 | `__len__` is the layer count. An int subscript succeeds exactly for keys in `[-len, len)`. (`Powered_Model`, lines 129-130, is the same.) |
| `PoweredNets.Subscript` | models.py:108-109 | `__getitem__` subscripts the network's own layers. An int key yields one of its layers, a name key yields a layer with that name, and a `Sequential` holds more than one layer. (`Powered_Model`, lines 132-133, is the same.) |
| `PoweredNets.Call` | models.py:111-113 | `call` forwards over the network's own layers. Without keys it chains all layers. On success it invokes exactly the non-negative positions between the resolved start and last keys, each once, in ascending order, all inside the network. (`Powered_Model`, lines 135-137, is the same.) |
| `PoweredNets.DetectorLength` | models.py:209-210 | A wired detector has two layers per branch. |
| `PoweredNets.OutputShape` | models.py:212-214 | One shape per predictor, in predictor order. When wired, entry `i` is the shape of the layer that ends branch `i`. |
| `PoweredNets.DetectorCall` | models.py:216-226 | It succeeds iff every branch's two positions lie inside the layer list, and then returns one output per input. Output `i` is `layers[i + len(input_layers)](layers[i](inputs[i]))`, so when wired it is `predictors[i](input_layers[i](inputs[i]))`. Otherwise it raises IndexError. |

## Left out

- `BaseNet` construction (models.py:143-181) is not modelled. It loads pretrained VGG16 networks through a foreign library and resamples weights at random. Its only branch is the architecture-alias check that raises TypeError.
- `ExtraNet` (models.py:184-192) adds no behaviour to `Powered_Sequential`.
- How Keras fills `self.layers` is not modelled. The layer list is an input. For `DetectorNet`, Keras's wiring (input stages first, then one predictor per input) is the predicate `Wired`, not a construction.
- The `training` argument of `call` is not modelled, because the code never reads it.
- Layer numerics (Conv2D, MaxPool2D, InputLayer) are uninterpreted functions on an abstract tensor type. A list of input tensors is one value of that type.
- `Sequential(item)` is modelled as the `Sequential` tag on the slice. A Keras model is not built.
- Slice bounds of types other than None, int and str are not modelled; Python's list slicing rejects them with TypeError. The step of a slice key is never read by the code, so it is not modelled.
- Python's `bool` is a subclass of `int`, so a bool key would take the int branch. This is not modelled.
- Exception messages are not modelled. Only the exception class is kept.
- Layer invocation is observed through the `invoked` trace of `RunLayers`, `IndexableCall` and `PoweredNets.Call`.
- DetectorCall: does not report which layers it invokes. Its contract states each branch's output, not an invocation trace.
