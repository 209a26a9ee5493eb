/**
 * The structural part of the feed-forward and convolutional building blocks
 * of the network library: how an `MLP` checks its structure list and chains
 * its layers, which activation each layer applies, and the feature-map size
 * arithmetic of the MinAtar convolutional core. Linear layers and
 * activations are opaque: a layer is the pair of its sizes and applying it is
 * a function supplied by the caller.
 */
module NetsMlp {

  import opened Wrappers

  /** An element of the `net_struc` list: `[units, "act"]` or a bare activation string. */
  datatype StrucItem = Hidden(units: nat, activation: string) | Final(name: string)

  /** The `net_struc` argument: a list of items, or some value that is not a list. */
  datatype NetStruc = StrucList(items: seq<StrucItem>) | NotAList

  /** `nn.Linear(inSize, outSize)`, described by its sizes. */
  datatype Linear = Linear(inSize: int, outSize: int)

  /** The activations of the `ACTIVATIONS` table. */
  datatype Activation = Relu | Identity | Tanh

  datatype MlpError =
    | StrucNotList           // first assertion of the constructor
    | StrucTooShort          // fewer than one hidden layer and a final activation
    | FinalNotActivation     // last element is not an activation string
    | HiddenNotLayer(index: nat)  // a bare string where `[units, act]` was needed: `nn.Linear` rejects its first character
    | UnknownActivation(layer: nat, name: string)  // `ACTIVATIONS[act_str]` raises a KeyError

  /** `ACTIVATIONS.get(name)`. */
  function LookupActivation(name: string): (r: Option<Activation>)
    ensures r.Some? <==> name in {"relu", "identity", "tanh"}
    ensures r == Some(Relu) <==> name == "relu"
    ensures r == Some(Tanh) <==> name == "tanh"
  {
    if name == "relu" then Some(Relu)
    else if name == "identity" then Some(Identity)
    else if name == "tanh" then Some(Tanh)
    else None
  }

  /** The first index below `limit` whose item is a bare string. */
  function FirstBareString(items: seq<StrucItem>, limit: nat): (r: Option<nat>)
    requires limit <= |items|
    ensures r.None? <==> forall k :: 0 <= k < limit ==> items[k].Hidden?
    ensures r.Some? ==> r.value < limit && items[r.value].Final?
                        && forall k :: 0 <= k < r.value ==> items[k].Hidden?
  {
    if limit == 0 then None
    else match FirstBareString(items, limit - 1)
      case Some(k) => Some(k)
      case None => if items[limit - 1].Final? then Some(limit - 1) else None
  }

  /** An accepted structure: at least two items, `[units, act]` pairs followed by one activation string. */
  predicate WellFormed(items: seq<StrucItem>)
  {
    |items| >= 2 && items[|items| - 1].Final?
    && forall k :: 0 <= k < |items| - 1 ==> items[k].Hidden?
  }

  /**
   * `MLP.__init__`: validate `net_struc` and create one linear layer per
   * element: input to the first hidden size, hidden to hidden, and the last
   * hidden size to the output size.
   */
  function BuildMlp(inSize: int, outSize: int, struc: NetStruc): (r: Result<seq<Linear>, MlpError>)
    ensures struc.NotAList? ==> r == Failure(StrucNotList)
    ensures struc.StrucList? && |struc.items| < 2 ==> r == Failure(StrucTooShort)
    ensures struc.StrucList? && |struc.items| >= 2 && struc.items[|struc.items| - 1].Hidden?
            ==> r == Failure(FinalNotActivation)
    ensures r.Success? <==> struc.StrucList? && WellFormed(struc.items)
    ensures r.Success? ==>
              var items, layers := struc.items, r.value;
              && |layers| == |items|
              && layers[0].inSize == inSize
              && layers[|layers| - 1].outSize == outSize
              && (forall i :: 0 <= i < |layers| - 1 ==> layers[i].outSize == items[i].units)
              && (forall i :: 0 <= i < |layers| - 1 ==> layers[i].outSize == layers[i + 1].inSize)
  {
    match struc
    case NotAList => Failure(StrucNotList)
    case StrucList(items) =>
      if |items| < 2 then Failure(StrucTooShort)
      else if !items[|items| - 1].Final? then Failure(FinalNotActivation)
      else match FirstBareString(items, |items| - 1)
        case Some(k) => Failure(HiddenNotLayer(k))
        case None =>
          var n := |items|;
          Success([Linear(inSize, items[0].units)]
                  + seq(n - 2, idx requires 0 <= idx < n - 2 => Linear(items[idx].units, items[idx + 1].units))
                  + [Linear(items[n - 2].units, outSize)])
  }

  /** The activation name layer `layerIdx` looks up in `forward`: `struc[-1]` for the last layer, else `struc[i][1]`. */
  function ActivationName(items: seq<StrucItem>, layerIdx: nat): string
    requires WellFormed(items) && layerIdx < |items|
  {
    if layerIdx == |items| - 1 then items[layerIdx].name else items[layerIdx].activation
  }

  /** The activations all layers use, or the KeyError of the first unknown name. */
  function Activations(items: seq<StrucItem>, upTo: nat): (r: Result<seq<Activation>, MlpError>)
    requires WellFormed(items) && upTo <= |items|
    ensures r.Success? <==> forall i :: 0 <= i < upTo ==> LookupActivation(ActivationName(items, i)).Some?
    ensures r.Success? ==> |r.value| == upTo
    ensures r.Success? ==> forall i :: 0 <= i < upTo ==> Some(r.value[i]) == LookupActivation(ActivationName(items, i))
    ensures r.Failure? ==> r.error.UnknownActivation? && r.error.layer < upTo
                           && r.error.name == ActivationName(items, r.error.layer)
                           && LookupActivation(r.error.name).None?
                           && forall i :: 0 <= i < r.error.layer ==> LookupActivation(ActivationName(items, i)).Some?
  {
    if upTo == 0 then Success([])
    else match Activations(items, upTo - 1)
      case Failure(e) => Failure(e)
      case Success(acts) =>
        match LookupActivation(ActivationName(items, upTo - 1))
        case None => Failure(UnknownActivation(upTo - 1, ActivationName(items, upTo - 1)))
        case Some(act) => Success(acts + [act])
  }

  /** Last layer uses the final string, every other layer the activation of its pair. */
  lemma ActivationOfLayer(items: seq<StrucItem>, layerIdx: nat)
    requires WellFormed(items) && layerIdx < |items|
    ensures layerIdx == |items| - 1 ==> ActivationName(items, layerIdx) == items[|items| - 1].name
    ensures layerIdx < |items| - 1 ==> ActivationName(items, layerIdx) == items[layerIdx].activation
  {
  }

  /** The value after the first `k` layers, each applying its linear map and then its activation. */
  function Run<V>(layers: seq<Linear>, acts: seq<Activation>, x: V, k: nat,
                  apply: (Linear, V) -> V, activate: (Activation, V) -> V): V
    requires k <= |layers| && k <= |acts|
  {
    if k == 0 then x else activate(acts[k - 1], apply(layers[k - 1], Run(layers, acts, x, k - 1, apply, activate)))
  }

  /**
   * `MLP.forward`: for each layer look up its activation and apply
   * `act_f(layer(x))`; an unknown activation name stops the pass with the
   * KeyError of the first layer that has one.
   */
  method Forward<V>(items: seq<StrucItem>, layers: seq<Linear>, x: V,
                    apply: (Linear, V) -> V, activate: (Activation, V) -> V)
    returns (r: Result<V, MlpError>)
    requires WellFormed(items) && |layers| == |items|
    ensures Activations(items, |items|).Failure? ==> r == Failure(Activations(items, |items|).error)
    ensures Activations(items, |items|).Success? ==>
              r == Success(Run(layers, Activations(items, |items|).value, x, |layers|, apply, activate))
  {
    var y := x;
    var layerIdx := 0;
    ghost var acts: seq<Activation> := [];
    while layerIdx < |layers|
      invariant layerIdx <= |layers|
      invariant Activations(items, layerIdx) == Success(acts)
      invariant y == Run(layers, acts, x, layerIdx, apply, activate)
    {
      var actStr := if layerIdx == |items| - 1 then items[layerIdx].name else items[layerIdx].activation;
      var actF := LookupActivation(actStr);
      if actF.None? {
        FailurePersists(items, layerIdx + 1, |items|);
        return Failure(UnknownActivation(layerIdx, actStr));
      }
      RunExtends(layers, acts, actF.value, x, layerIdx, apply, activate);
      y := activate(actF.value, apply(layers[layerIdx], y));
      acts := acts + [actF.value];
      layerIdx := layerIdx + 1;
    }
    r := Success(y);
  }

  /** Appending an activation does not change the value of the earlier layers. */
  lemma {:induction false} RunExtends<V>(layers: seq<Linear>, acts: seq<Activation>, a: Activation, x: V, k: nat,
                                         apply: (Linear, V) -> V, activate: (Activation, V) -> V)
    requires k <= |layers| && k == |acts|
    ensures Run(layers, acts + [a], x, k, apply, activate) == Run(layers, acts, x, k, apply, activate)
  {
    if k > 0 {
      assert (acts + [a])[..k - 1] == acts[..k - 1];
      RunPrefix(layers, acts + [a], acts, x, k, apply, activate);
    }
  }

  lemma {:induction false} RunPrefix<V>(layers: seq<Linear>, a1: seq<Activation>, a2: seq<Activation>, x: V, k: nat,
                                        apply: (Linear, V) -> V, activate: (Activation, V) -> V)
    requires k <= |layers| && k <= |a1| && k <= |a2| && a1[..k] == a2[..k]
    ensures Run(layers, a1, x, k, apply, activate) == Run(layers, a2, x, k, apply, activate)
  {
    if k > 0 {
      assert a1[k - 1] == a1[..k][k - 1];
      assert a2[k - 1] == a2[..k][k - 1];
      assert a1[..k - 1] == a1[..k][..k - 1];
      assert a2[..k - 1] == a2[..k][..k - 1];
      RunPrefix(layers, a1, a2, x, k - 1, apply, activate);
    }
  }

  /** Once a layer's activation is unknown, the whole lookup fails with that layer's error. */
  lemma {:induction false} FailurePersists(items: seq<StrucItem>, k: nat, n: nat)
    requires WellFormed(items) && k <= n <= |items|
    requires Activations(items, k).Failure?
    ensures Activations(items, n) == Activations(items, k)
  {
    if n > k {
      FailurePersists(items, k, n - 1);
    }
  }

  // ---------------------------------------------------------------------
  // MinAtar convolutional core

  /** MinAtar convolution hyper-parameters: 16 output channels, 3x3 kernel, stride 1, no padding. */
  const ConvOutChannels: int := 16
  const ConvKernelSize: int := 3
  const ConvStride: int := 1

  /** Python's `a // b`: the floor of the exact quotient. */
  function FloorDiv(a: int, b: int): (q: int)
    requires b != 0
    ensures b > 0 ==> q * b <= a < q * b + b
    ensures b < 0 ==> q * b >= a > q * b + b
  {
    if b > 0 then a / b else (-a) / (-b)
  }

  /** `_output_size_filter`: side length of a feature map for padding 0 and dilation 1. */
  function OutputSizeFilter(size: int, kernelSize: int, stride: int): (r: int)
    requires stride != 0
    ensures stride > 0 && kernelSize >= 1 && size >= kernelSize ==>
              r >= 1 && (r - 1) * stride + kernelSize <= size < r * stride + kernelSize
  {
    FloorDiv(size - (kernelSize - 1) - 1, stride) + 1
  }

  /** With the MinAtar kernel and stride a side of length `size` loses two cells. */
  lemma OutputSizeFilterDefaults(size: int)
    ensures OutputSizeFilter(size, ConvKernelSize, ConvStride) == size - 2
  {
  }

  /** `in_size_FC`: number of features after flattening the 16 feature maps. */
  function InSizeFC(height: int, width: int): (r: int)
    ensures r == (height - 2) * (width - 2) * ConvOutChannels
  {
    OutputSizeFilterDefaults(height);
    OutputSizeFilterDefaults(width);
    OutputSizeFilter(height, ConvKernelSize, ConvStride) * OutputSizeFilter(width, ConvKernelSize, ConvStride) * ConvOutChannels
  }
}
