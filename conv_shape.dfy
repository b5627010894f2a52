/**
 * `conv_shape`: the length of one spatial dimension after a convolution (or a
 * pooling window) of kernel size K, stride S and padding P, and the shapes the
 * voice autoencoder's encoder goes through.
 */
module ConvShapes {
  import opened Wrappers

  /** Python's `//` by zero raises `ZeroDivisionError`. */
  datatype ArithError = ZeroDivision

  /** Python's floor division `a // b`, for either sign of `b`. */
  function FloorDiv(a: int, b: int): (q: int)
    requires b != 0
    ensures b > 0 ==> b * q <= a < b * q + b
    ensures b < 0 ==> b * q >= a > b * q + b
  {
    if b > 0 then a / b else (-a) / (-b)
  }

  /** `conv_shape`: the padded length less the kernel, floor-divided by the stride, plus one. */
  function ConvShape(length: int, kernel: int, stride: int, padding: int): (r: Result<int, ArithError>)
    ensures r.Err? <==> stride == 0
    // Python's floor division pins the result down for either sign of the stride.
    ensures stride > 0 ==>
              r.Ok? && stride * (r.value - 1) <= length + 2 * padding - kernel < stride * r.value
    ensures stride < 0 ==>
              r.Ok? && stride * (r.value - 1) >= length + 2 * padding - kernel > stride * r.value
    // With a positive stride the result counts the window positions
    // 0, S, 2S, ... at which the kernel still fits in the padded input.
    ensures stride > 0 && length + 2 * padding >= kernel ==> r.Ok? && r.value >= 1
    ensures stride > 0 && length + 2 * padding < kernel ==> r.Ok? && r.value <= 0
  {
    if stride == 0 then Err(ZeroDivision)
    else Ok(FloorDiv(length + 2 * padding - kernel, stride) + 1)
  }

  /** With stride 1, a kernel of odd size 2P + 1 padded by P keeps the length. */
  lemma SamePadding(length: int, padding: nat)
    ensures ConvShape(length, 2 * padding + 1, 1, padding) == Ok(length)
  {
  }

  /** A window of 2 with stride 2 (the encoder's max-pooling layer) halves, rounding down. */
  lemma PoolHalves(length: int)
    ensures ConvShape(length, 2, 2, 0) == Ok(FloorDiv(length, 2))
  {
  }

  /** One layer of the encoder: kernel, stride and padding, equal in both dimensions. */
  datatype Layer = Layer(kernel: int, stride: int, padding: int)

  /** The encoder's four convolutions and its pooling layer, in order. */
  const EncoderLayers: seq<Layer> := [
    Layer(3, 1, 1),  // first convolution, 1 to 8 channels
    Layer(5, 2, 1),  // second convolution, 8 to 16 channels
    Layer(5, 2, 2),  // third convolution, 16 to 32 channels
    Layer(2, 2, 0),  // max pooling over 2 x 2 windows
    Layer(3, 1, 1)   // last convolution, 32 channels to 1
  ]

  /** The lengths a dimension takes after each layer, starting with the input length. */
  function Shapes(length: int, layers: seq<Layer>): (r: Result<seq<int>, ArithError>)
    ensures r.Ok? ==> |r.value| == |layers| + 1 && r.value[0] == length
    ensures r.Ok? ==> forall i :: 0 <= i < |layers| ==>
              ConvShape(r.value[i], layers[i].kernel, layers[i].stride, layers[i].padding) ==
              Ok(r.value[i + 1])
    ensures r.Err? <==> exists i :: 0 <= i < |layers| && layers[i].stride == 0
    decreases |layers|
  {
    if |layers| == 0 then Ok([length])
    else
      match ConvShape(length, layers[0].kernel, layers[0].stride, layers[0].padding)
      case Err(e) => Err(e)
      case Ok(next) =>
        match Shapes(next, layers[1..])
        case Err(e) =>
          assert exists i :: 0 <= i < |layers| && layers[i].stride == 0 by {
            var i :| 0 <= i < |layers[1..]| && layers[1..][i].stride == 0;
            assert layers[i + 1].stride == 0;
          }
          Err(e)
        case Ok(rest) =>
          assert forall i :: 0 < i < |layers| ==> layers[i] == layers[1..][i - 1];
          var shapes := [length] + rest;
          assert forall i :: 0 < i < |layers| ==>
            shapes[i] == rest[i - 1] && shapes[i + 1] == rest[i];
          Ok(shapes)
  }

  /** Running a stack of layers runs its first layer, then the rest. */
  lemma ShapesStep(length: int, layer: Layer, rest: seq<Layer>, next: int, tail: seq<int>)
    requires ConvShape(length, layer.kernel, layer.stride, layer.padding) == Ok(next)
    requires Shapes(next, rest) == Ok(tail)
    ensures Shapes(length, [layer] + rest) == Ok([length] + tail)
  {
    assert ([layer] + rest)[1..] == rest;
  }

  /**
   * The shapes noted beside the encoder: a 1025 x 251 spectrogram becomes
   * 1025 x 251, 512 x 125, 256 x 63, 128 x 31 and finally 128 x 31.
   */
  lemma EncoderShapes()
    ensures Shapes(1025, EncoderLayers) == Ok([1025, 1025, 512, 256, 128, 128])
    ensures Shapes(251, EncoderLayers) == Ok([251, 251, 125, 63, 31, 31])
  {
    var conv1, conv2, conv3 := Layer(3, 1, 1), Layer(5, 2, 1), Layer(5, 2, 2);
    var pool, conv4 := Layer(2, 2, 0), Layer(3, 1, 1);
    assert EncoderLayers == [conv1] + ([conv2] + ([conv3] + ([pool] + ([conv4] + []))));
    var r4, r3, r2 := [conv4] + [], [pool] + ([conv4] + []), [conv3] + ([pool] + ([conv4] + []));
    var r1 := [conv2] + r2;
    // heights
    ShapesStep(128, conv4, [], 128, [128]);
    ShapesStep(256, pool, r4, 128, [128] + [128]);
    ShapesStep(512, conv3, r3, 256, [256] + ([128] + [128]));
    ShapesStep(1025, conv2, r2, 512, [512] + ([256] + ([128] + [128])));
    ShapesStep(1025, conv1, r1, 1025, [1025] + ([512] + ([256] + ([128] + [128]))));
    assert [1025] + ([1025] + ([512] + ([256] + ([128] + [128])))) == [1025, 1025, 512, 256, 128, 128];
    // widths
    ShapesStep(31, conv4, [], 31, [31]);
    ShapesStep(63, pool, r4, 31, [31] + [31]);
    ShapesStep(125, conv3, r3, 63, [63] + ([31] + [31]));
    ShapesStep(251, conv2, r2, 125, [125] + ([63] + ([31] + [31])));
    ShapesStep(251, conv1, r1, 251, [251] + ([125] + ([63] + ([31] + [31]))));
    assert [251] + ([251] + ([125] + ([63] + ([31] + [31])))) == [251, 251, 125, 63, 31, 31];
  }
}
