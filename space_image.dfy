/**
 * The Space Image Format of archive/2019/day8/src/main.rs: a string of
 * digits fills layers of `height` rows of `width` pixels; the checksum is
 * taken from the layer with the fewest 0 pixels, and the image shows at
 * every pixel the first layer's value there that is not 2 (transparent).
 */
module SpaceImage {
  import Numbers
  import Tallies

  const U32Max: nat := 0xFFFF_FFFF

  /** The range of the `i64` width and height and of their product. */
  const I64Min: int := -0x8000_0000_0000_0000
  const I64Max: int := 0x7FFF_FFFF_FFFF_FFFF

  /** The transparent pixel value. */
  const Clear: nat := 2

  /** A layer, or the image: rows of pixels. */
  type Layer = seq<seq<nat>>

  /** A layer of h rows of w pixels. */
  predicate Fills(layer: Layer, h: nat, w: nat)
  {
    |layer| == h && forall r :: 0 <= r < h ==> |layer[r]| == w
  }

  /** Every layer has h rows of w pixels. */
  predicate Shaped(layers: seq<Layer>, h: nat, w: nat)
  {
    forall k :: 0 <= k < |layers| ==> Fills(layers[k], h, w)
  }

  /** The width `flatten` reads, `layers[0][0].len()`. */
  function Width(layers: seq<Layer>): nat
    requires layers != []
  {
    if layers[0] == [] then 0 else |layers[0][0]|
  }

  /** All layers have the dimensions of the first. */
  predicate Uniform(layers: seq<Layer>)
  {
    layers != [] ==> Shaped(layers, |layers[0]|, Width(layers))
  }

  /** Every layer has a pixel at row r, column c. */
  predicate Fits(layers: seq<Layer>, r: nat, c: nat)
  {
    forall k :: 0 <= k < |layers| ==> r < |layers[k]| && c < |layers[k][r]|
  }

  /** The pixel at row r, column c seen through the layers, front layer first. */
  function Visible(layers: seq<Layer>, r: nat, c: nat): nat
    requires Fits(layers, r, c)
  {
    if layers == [] then Clear
    else
      var above := Visible(layers[..|layers| - 1], r, c);
      if above != Clear then above else layers[|layers| - 1][r][c]
  }

  /** Layer k is the first whose pixel at row r, column c is not transparent. */
  predicate FirstShown(layers: seq<Layer>, r: nat, c: nat, k: nat)
    requires Fits(layers, r, c)
  {
    k < |layers| && layers[k][r][c] != Clear && forall j :: 0 <= j < k ==> layers[j][r][c] == Clear
  }

  /**
   * A pixel is transparent exactly when it is transparent on every layer;
   * otherwise it is the value of the first layer where it is not.
   */
  lemma {:induction false} VisibleMeans(layers: seq<Layer>, r: nat, c: nat)
    requires Fits(layers, r, c)
    ensures Visible(layers, r, c) == Clear <==> forall k :: 0 <= k < |layers| ==> layers[k][r][c] == Clear
    ensures forall k: nat :: FirstShown(layers, r, c, k) ==> Visible(layers, r, c) == layers[k][r][c]
  {
    if layers != [] {
      var n := |layers| - 1;
      var front := layers[..n];
      assert forall k :: 0 <= k < n ==> front[k] == layers[k];
      VisibleMeans(front, r, c);
      forall k: nat | FirstShown(layers, r, c, k)
        ensures Visible(layers, r, c) == layers[k][r][c]
      {
        if k < n {
          assert FirstShown(front, r, c, k);
        } else {
          assert forall j :: 0 <= j < n ==> front[j][r][c] == Clear;
        }
      }
    }
  }

  /** Once a pixel shows, the layers behind do not change it. */
  lemma {:induction false} VisibleStays(layers: seq<Layer>, behind: seq<Layer>, r: nat, c: nat)
    requires Fits(layers, r, c) && Fits(behind, r, c) && Visible(layers, r, c) != Clear
    ensures Fits(layers + behind, r, c) && Visible(layers + behind, r, c) == Visible(layers, r, c)
    decreases |behind|
  {
    var all := layers + behind;
    assert forall k :: 0 <= k < |all| ==> all[k] == if k < |layers| then layers[k] else behind[k - |layers|];
    if behind != [] {
      var n := |behind| - 1;
      assert all[..|all| - 1] == layers + behind[..n];
      VisibleStays(layers, behind[..n], r, c);
    } else {
      assert all == layers;
    }
  }

  /** What `flatten` returns: nothing for no layers, else the visible pixels in the dimensions of layer 0. */
  function Flattened(layers: seq<Layer>): (image: Layer)
    requires Uniform(layers)
    ensures layers != [] ==> Fills(image, |layers[0]|, Width(layers))
  {
    if layers == [] then []
    else
      var h, w := |layers[0]|, Width(layers);
      seq(h, r requires 0 <= r < h => seq(w, c requires 0 <= c < w => Visible(layers, r, c)))
  }

  /** Where `image[row][col]` is still transparent, it takes the layer's pixel. */
  method CoverRow(row: seq<nat>, pixels: seq<nat>) returns (r: seq<nat>)
    requires |pixels| >= |row|
    ensures |r| == |row| && forall c :: 0 <= c < |row| ==> r[c] == if row[c] == Clear then pixels[c] else row[c]
  {
    r := row;
    for col := 0 to |row|
      invariant |r| == |row| && forall c :: 0 <= c < |row| ==> r[c] == if c < col && row[c] == Clear then pixels[c] else row[c]
    {
      if r[col] == Clear {
        r := r[col := pixels[col]];
      }
    }
  }

  /** One layer of the `for layer in layers` loop of `flatten`. */
  method Cover(image: Layer, layer: Layer, h: nat, w: nat) returns (r: Layer)
    requires Fills(image, h, w) && Fills(layer, h, w)
    ensures Fills(r, h, w)
    ensures forall row, col :: 0 <= row < h && 0 <= col < w ==>
      r[row][col] == if image[row][col] == Clear then layer[row][col] else image[row][col]
  {
    r := image;
    for row := 0 to |layer|
      invariant Fills(r, h, w)
      invariant forall j :: 0 <= j < h ==> forall col :: 0 <= col < w ==>
        r[j][col] == if j < row && image[j][col] == Clear then layer[j][col] else image[j][col]
    {
      var covered := CoverRow(r[row], layer[row]);
      r := r[row := covered];
    }
  }

  /** The image after some layers. */
  predicate Drawn(image: Layer, layers: seq<Layer>, h: nat, w: nat)
    requires Shaped(layers, h, w)
  {
    Fills(image, h, w) && forall r, c :: 0 <= r < h && 0 <= c < w ==> image[r][c] == Visible(layers, r, c)
  }

  /** `flatten`: an image of transparent pixels, then every layer in turn shows through where it is still transparent. */
  method Flatten(layers: seq<Layer>) returns (image: Layer)
    requires Uniform(layers)
    ensures image == Flattened(layers)
  {
    image := [];
    if |layers| == 0 {
      return;
    }
    var h, w := |layers[0]|, Width(layers);
    for i := 0 to h
      invariant |image| == i && forall r :: 0 <= r < i ==> |image[r]| == w && forall c :: 0 <= c < w ==> image[r][c] == Clear
    {
      var row: seq<nat> := [];
      for j := 0 to w
        invariant |row| == j && forall c :: 0 <= c < j ==> row[c] == Clear
      {
        row := row + [Clear];
      }
      image := image + [row];
    }
    for k := 0 to |layers|
      invariant Shaped(layers[..k], h, w) && Drawn(image, layers[..k], h, w)
    {
      var front := layers[..k + 1];
      assert front[..k] == layers[..k] && front[k] == layers[k];
      image := Cover(image, layers[k], h, w);
    }
    assert layers[..|layers|] == layers;
    var want := Flattened(layers);
    forall r | 0 <= r < h
      ensures image[r] == want[r]
    {
    }
  }

  /** The number of pixels of value v in a row. */
  function Tally(row: seq<nat>, v: nat): nat
  {
    if row == [] then 0 else Tally(row[..|row| - 1], v) + if row[|row| - 1] == v then 1 else 0
  }

  /** The tally of a row is the multiplicity of the value among its pixels. */
  lemma {:induction false} TallyMeans(row: seq<nat>, v: nat)
    ensures Tally(row, v) == multiset(row)[v]
  {
    if row != [] {
      var n := |row| - 1;
      TallyMeans(row[..n], v);
      assert row == row[..n] + [row[n]];
    }
  }

  /** The number of pixels of value v in a layer. */
  function Count(layer: Layer, v: nat): nat
  {
    if layer == [] then 0 else Count(layer[..|layer| - 1], v) + Tally(layer[|layer| - 1], v)
  }

  /** A histogram that holds the counts of a layer, and a key only for values that occur. */
  ghost predicate Counted(m: map<nat, nat>, layer: Layer)
  {
    (forall v :: Tallies.Get(m, v) == Count(layer, v)) && forall v :: v in m <==> Count(layer, v) > 0
  }

  /** The inner loops of `checksum` over one row: each pixel's count goes up by one. */
  method Tabulate(m: map<nat, nat>, row: seq<nat>) returns (r: map<nat, nat>)
    requires forall v :: v in m <==> Tallies.Get(m, v) > 0
    ensures forall v :: Tallies.Get(r, v) == Tallies.Get(m, v) + Tally(row, v)
    ensures forall v :: v in r <==> Tallies.Get(r, v) > 0
  {
    r := m;
    for u := 0 to |row|
      invariant forall v :: Tallies.Get(r, v) == Tallies.Get(m, v) + Tally(row[..u], v)
      invariant forall v :: v in r <==> Tallies.Get(r, v) > 0
    {
      assert row[..u + 1][..u] == row[..u];
      r := Tallies.Add(r, row[u], 1);
    }
    assert row[..|row|] == row;
  }

  /** The histogram `checksum` builds for one layer. */
  method Histogram(layer: Layer) returns (m: map<nat, nat>)
    ensures Counted(m, layer)
  {
    m := map[];
    for i := 0 to |layer|
      invariant forall v :: Tallies.Get(m, v) == Count(layer[..i], v)
      invariant forall v :: v in m <==> Tallies.Get(m, v) > 0
    {
      assert layer[..i + 1][..i] == layer[..i];
      m := Tabulate(m, layer[i]);
    }
    assert layer[..|layer|] == layer;
  }

  /** The `chksm` closure: the count of 1s times the count of 2s, a missing key read as 0. */
  function Product(data: map<nat, nat>): nat
  {
    Tallies.Get(data, 1) * Tallies.Get(data, 2)
  }

  /** The checksum of a layer. */
  function LayerSum(layer: Layer): nat
  {
    Count(layer, 1) * Count(layer, 2)
  }

  /**
   * The selection loop of `checksum` after some layers: the fewest zeros
   * so far, from `u32::MAX`, and the checksum of the layer that had them;
   * a layer without zeros always takes over.
   */
  function Select(layers: seq<Layer>): (nat, nat)
  {
    if layers == [] then (U32Max, 0)
    else
      var (fewest, checksum) := Select(layers[..|layers| - 1]);
      var last := layers[|layers| - 1];
      var zeros := Count(last, 0);
      if zeros == 0 then (0, LayerSum(last))
      else if zeros < fewest then (zeros, LayerSum(last))
      else (fewest, checksum)
  }

  /** Layer k has no zeros and every later layer has some. */
  predicate LastClean(layers: seq<Layer>, k: nat)
  {
    k < |layers| && Count(layers[k], 0) == 0 && forall j :: k < j < |layers| ==> Count(layers[j], 0) > 0
  }

  /** Layer k has strictly fewer zeros than every earlier one and no more than every later one. */
  predicate FirstFewest(layers: seq<Layer>, k: nat)
  {
    k < |layers|
    && (forall j :: 0 <= j < k ==> Count(layers[j], 0) > Count(layers[k], 0))
    && forall j :: k < j < |layers| ==> Count(layers[j], 0) >= Count(layers[k], 0)
  }

  /** With some layer free of zeros, the checksum is that of the last such layer. */
  lemma {:induction false} SelectClean(layers: seq<Layer>, k: nat)
    requires LastClean(layers, k)
    ensures Select(layers) == (0, LayerSum(layers[k]))
    decreases |layers|
  {
    var n := |layers| - 1;
    if k < n {
      var front := layers[..n];
      assert forall j :: 0 <= j < n ==> front[j] == layers[j];
      SelectClean(front, k);
    }
  }

  /** With zeros in every layer, fewer than `u32::MAX`, the checksum is that of the first layer with the fewest. */
  lemma {:induction false} SelectFewest(layers: seq<Layer>, k: nat)
    requires FirstFewest(layers, k) && 0 < Count(layers[k], 0) < U32Max
    ensures Select(layers) == (Count(layers[k], 0), LayerSum(layers[k]))
    decreases |layers|
  {
    var n := |layers| - 1;
    var front := layers[..n];
    assert forall j :: 0 <= j < n ==> front[j] == layers[j];
    if k < n {
      SelectFewest(front, k);
    } else {
      SelectAbove(front, Count(layers[k], 0));
    }
  }

  /** Layers with more than z zeros each, z below `u32::MAX`, leave the fewest above z. */
  lemma {:induction false} SelectAbove(layers: seq<Layer>, z: nat)
    requires z < U32Max && forall j :: 0 <= j < |layers| ==> Count(layers[j], 0) > z
    ensures Select(layers).0 > z
    decreases |layers|
  {
    if layers != [] {
      var n := |layers| - 1;
      var front := layers[..n];
      assert forall j :: 0 <= j < n ==> front[j] == layers[j];
      SelectAbove(front, z);
    }
  }

  /** `checksum`: a histogram per layer, then the selection over the histograms. */
  method Checksum(layers: seq<Layer>) returns (checksum: nat)
    ensures checksum == Select(layers).1
  {
    var histogram: seq<map<nat, nat>> := [];
    for k := 0 to |layers|
      invariant |histogram| == k && forall j :: 0 <= j < k ==> Counted(histogram[j], layers[j])
    {
      var m := Histogram(layers[k]);
      histogram := histogram + [m];
    }
    var fewest := U32Max;
    checksum := 0;
    for k := 0 to |histogram|
      invariant (fewest, checksum) == Select(layers[..k])
    {
      var data := histogram[k];
      assert layers[..k + 1][..k] == layers[..k];
      assert Product(data) == LayerSum(layers[k]);
      if 0 in data {
        var num := data[0];
        if num < fewest {
          fewest := num;
          checksum := Product(data);
        }
      } else {
        fewest := 0;
        checksum := Product(data);
      }
    }
    assert layers[..|layers|] == layers;
  }

  /** The value of a decimal digit, `to_digit(10)`; any other character makes `unwrap` panic before its value is used. */
  function Digit(ch: char): nat
  {
    if Numbers.IsDigit(ch) then ch as int - '0' as int else 0
  }

  /** The number of layers: the pixels over the layer size, rounded up. */
  function Total(n: nat, size: nat): nat
    requires size > 0
  {
    n / size + if n % size != 0 then 1 else 0
  }

  /** The layers hold all pixels, and with one layer fewer they would not. */
  lemma TotalMeans(n: nat, size: nat)
    requires size > 0
    ensures n <= Total(n, size) * size
    ensures Total(n, size) > 0 ==> (Total(n, size) - 1) * size < n
  {
    var q, m := n / size, n % size;
    assert n == q * size + m;
    if m != 0 {
      assert (q + 1) * size == q * size + size;
    }
  }

  /** The position in the input of layer k, row r, column c. */
  function Pos(w: nat, h: nat, k: nat, r: nat, c: nat): nat
  {
    (k * h + r) * w + c
  }

  /** The pixel at input position p, or 0 past the end (`resize(width, 0)`). */
  function Shown(input: string, p: nat): nat
  {
    if p < |input| then Digit(input[p]) else 0
  }

  /** The layers the pixel loop of `main` fills: the pixels go column by column, row by row, layer by layer. */
  function Layered(input: string, w: nat, h: nat): (layers: seq<Layer>)
    requires Numbers.AllDigits(input) && w > 0 && h > 0
    ensures |layers| == Total(|input|, w * h) && Shaped(layers, h, w) && Uniform(layers)
  {
    var total := Total(|input|, w * h);
    seq(total, k requires 0 <= k < total =>
      seq(h, r requires 0 <= r < h =>
        seq(w, c requires 0 <= c < w => Shown(input, Pos(w, h, k, r, c)))))
  }

  /** Different places have different positions. */
  lemma PosUnique(w: nat, h: nat, k: nat, r: nat, c: nat, k': nat, r': nat, c': nat)
    requires r < h && c < w && r' < h && c' < w && Pos(w, h, k, r, c) == Pos(w, h, k', r', c')
    ensures k == k' && r == r' && c == c'
  {
    Split(k * h + r, c, k' * h + r', c', w);
    Split(k, r, k', r', h);
  }

  lemma Split(a: int, x: nat, b: int, y: nat, w: nat)
    requires x < w && y < w && a * w + x == b * w + y
    ensures a == b && x == y
  {
    if a < b {
      Below(a, b, w);
      assert false;
    } else if b < a {
      Below(b, a, w);
      assert false;
    }
  }

  /** A larger multiple of w is at least w larger. */
  lemma Below(a: int, b: int, w: nat)
    requires a < b
    ensures a * w + w <= b * w
  {
    assert b * w == a * w + (b - a) * w;
    assert (b - a) * w == w + (b - a - 1) * w;
  }

  /** Layer k starts at position k * (w * h). */
  lemma Reach(w: nat, h: nat, k: nat, r: nat, c: nat)
    ensures k * (w * h) <= Pos(w, h, k, r, c)
  {
    assert (k * h + r) * w == (k * h) * w + r * w;
    assert k * (w * h) == (k * h) * w;
  }

  /** A position before the end of the input lies in one of the layers. */
  lemma InLayer(w: nat, h: nat, k: nat, r: nat, c: nat, n: nat)
    requires w > 0 && h > 0 && r < h && c < w && Pos(w, h, k, r, c) < n
    ensures k < Total(n, w * h)
  {
    TotalMeans(n, w * h);
    var t := Total(n, w * h);
    Reach(w, h, k, r, c);
    if t < k {
      Below(t, k, w * h);
      assert false;
    } else if t == k {
      assert false;
    }
  }

  /** The `i64` product `width * height`, which `main` divides by, is neither 0 nor past the `i64` range. */
  predicate Divisor(width: int, height: int)
  {
    width * height != 0 && I64Min <= width * height <= I64Max
  }

  /**
   * The layers and the pixel loop of `main`: each digit goes to
   * `layers[layer][row][col]`, then the column, row and layer move on. A
   * zero product divides by zero and a product past the `i64` range
   * overflows. With a negative dimension, `(width * height) as usize` is
   * past any input length or the product is positive: no input gives no
   * layers, and an input gives layers of no rows (`0..height` is empty for
   * a negative height) or rows resized to a negative width read as a huge
   * `usize`, and either panics.
   */
  method Unpack(input: string, width: int, height: int) returns (r: Numbers.Option<seq<Layer>>)
    ensures r.Some? <==> Divisor(width, height) && (if width > 0 && height > 0 then Numbers.AllDigits(input) else input == [])
    ensures r.Some? && width > 0 && height > 0 ==> r.value == Layered(input, width, height)
    ensures r.Some? && (width <= 0 || height <= 0) ==> r.value == []
  {
    if !Divisor(width, height) {
      return Numbers.None;
    }
    if width <= 0 || height <= 0 {
      if input == [] {
        return Numbers.Some([]);
      }
      return Numbers.None;
    }
    r := Pixels(input, width, height);
  }

  /** The pixel loop of `main` for positive dimensions: every character a digit, placed at its position, or no layers. */
  method Pixels(input: string, width: nat, height: nat) returns (r: Numbers.Option<seq<Layer>>)
    requires width > 0 && height > 0
    ensures r.Some? <==> Numbers.AllDigits(input)
    ensures r.Some? ==> r.value == Layered(input, width, height)
  {
    var size := width * height;
    var total := |input| / size;
    if |input| % size != 0 {
      total := total + 1;
    }
    assert total == Total(|input|, size);
    var layers := Zeroed(total, height, width);
    var row: nat, col: nat, layer: nat := 0, 0, 0;
    for i := 0 to |input|
      invariant i == Pos(width, height, layer, row, col) && row < height && col < width
      invariant Numbers.AllDigits(input[..i])
      invariant |layers| == total && Shaped(layers, height, width)
      invariant Holds(layers, input, i, width, height)
    {
      if !Numbers.IsDigit(input[i]) {
        return Numbers.None;
      }
      assert input[..i + 1] == input[..i] + [input[i]];
      layers, layer, row, col := Put(layers, input, i, layer, row, col, width, height);
    }
    assert input[..|input|] == input;
    Complete(layers, input, width, height);
    return Numbers.Some(layers);
  }

  /** One pass of the pixel loop: the digit at position i goes into its layer, and the position moves on. */
  method Put(layers: seq<Layer>, input: string, i: nat, layer: nat, row: nat, col: nat, width: nat, height: nat)
    returns (layers': seq<Layer>, layer': nat, row': nat, col': nat)
    requires width > 0 && height > 0 && i < |input| && Numbers.IsDigit(input[i])
    requires i == Pos(width, height, layer, row, col) && row < height && col < width
    requires |layers| == Total(|input|, width * height) && Shaped(layers, height, width)
    requires Holds(layers, input, i, width, height)
    ensures i + 1 == Pos(width, height, layer', row', col') && row' < height && col' < width
    ensures |layers'| == |layers| && Shaped(layers', height, width)
    ensures Holds(layers', input, i + 1, width, height)
  {
    InLayer(width, height, layer, row, col, |input|);
    layers' := Place(layers, input, i, layer, row, col, width, height);
    layer', row', col' := Next(width, height, layer, row, col);
  }

  /** The column moves on; past the last column the row does, and past the last row the layer. */
  method Next(width: nat, height: nat, layer: nat, row: nat, col: nat) returns (layer': nat, row': nat, col': nat)
    requires row < height && col < width
    ensures row' < height && col' < width
    ensures Pos(width, height, layer', row', col') == Pos(width, height, layer, row, col) + 1
  {
    Carry(width, height, layer, row, col);
    layer', row', col' := layer, row, col + 1;
    if col' >= width {
      col' := 0;
      row' := row + 1;
    }
    if row' >= height {
      row' := 0;
      layer' := layer + 1;
    }
  }

  /** The layers of `main` before the pixels: `total` layers of `height` rows of `width` zeros. */
  method Zeroed(total: nat, height: nat, width: nat) returns (layers: seq<Layer>)
    ensures |layers| == total && Shaped(layers, height, width)
    ensures forall k, r, c :: 0 <= k < total && 0 <= r < height && 0 <= c < width ==> layers[k][r][c] == 0
  {
    layers := [];
    for k := 0 to total
      invariant |layers| == k && Shaped(layers, height, width)
      invariant forall j, r, c :: 0 <= j < k && 0 <= r < height && 0 <= c < width ==> layers[j][r][c] == 0
    {
      var image: Layer := [];
      for r := 0 to height
        invariant Fills(image, r, width) && forall j, c :: 0 <= j < r && 0 <= c < width ==> image[j][c] == 0
      {
        image := image + [seq(width, _ => 0)];
      }
      layers := layers + [image];
    }
  }

  /** Once every position is placed, the layers are the ones the input describes. */
  lemma Complete(layers: seq<Layer>, input: string, w: nat, h: nat)
    requires w > 0 && h > 0 && Numbers.AllDigits(input)
    requires |layers| == Total(|input|, w * h) && Shaped(layers, h, w) && Holds(layers, input, |input|, w, h)
    ensures layers == Layered(input, w, h)
  {
    SameLayers(layers, Layered(input, w, h), h, w);
  }

  /** The next column, or the start of the next row, or of the next layer, is the next position. */
  lemma Carry(w: nat, h: nat, k: nat, r: nat, c: nat)
    requires r < h && c < w
    ensures c + 1 < w ==> Pos(w, h, k, r, c + 1) == Pos(w, h, k, r, c) + 1
    ensures c + 1 == w && r + 1 < h ==> Pos(w, h, k, r + 1, 0) == Pos(w, h, k, r, c) + 1
    ensures c + 1 == w && r + 1 == h ==> Pos(w, h, k + 1, 0, 0) == Pos(w, h, k, r, c) + 1
  {
    assert (k * h + r + 1) * w == (k * h + r) * w + w;
    assert (k + 1) * h == k * h + h;
  }

  /** Layers of the same shape with the same pixels are equal. */
  lemma SameLayers(a: seq<Layer>, b: seq<Layer>, h: nat, w: nat)
    requires |a| == |b| && Shaped(a, h, w) && Shaped(b, h, w)
    requires forall k, r, c :: 0 <= k < |a| && 0 <= r < h && 0 <= c < w ==> a[k][r][c] == b[k][r][c]
    ensures a == b
  {
    forall k | 0 <= k < |a|
      ensures a[k] == b[k]
    {
      forall r | 0 <= r < h
        ensures a[k][r] == b[k][r]
      {
      }
    }
  }

  /** Every place before input position i holds its digit, every later place 0. */
  predicate Holds(layers: seq<Layer>, input: string, i: nat, w: nat, h: nat)
    requires Shaped(layers, h, w)
  {
    i <= |input| && forall k, r, c :: 0 <= k < |layers| && 0 <= r < h && 0 <= c < w ==>
      layers[k][r][c] == if Pos(w, h, k, r, c) < i then Digit(input[Pos(w, h, k, r, c)]) else 0
  }

  /** `layers[layer][row][col] = pixel.to_digit(10).unwrap()` at input position i. */
  method Place(layers: seq<Layer>, input: string, i: nat, layer: nat, row: nat, col: nat, width: nat, height: nat)
    returns (r: seq<Layer>)
    requires i < |input| && Numbers.IsDigit(input[i]) && i == Pos(width, height, layer, row, col)
    requires layer < |layers| && row < height && col < width && Shaped(layers, height, width)
    requires Holds(layers, input, i, width, height)
    ensures |r| == |layers| && Shaped(r, height, width) && Holds(r, input, i + 1, width, height)
  {
    r := layers[layer := layers[layer][row := layers[layer][row][col := Digit(input[i])]]];
    forall k, r', c | 0 <= k < |layers| && 0 <= r' < height && 0 <= c < width
      ensures r[k][r'][c] == if Pos(width, height, k, r', c) < i + 1 then Digit(input[Pos(width, height, k, r', c)]) else 0
    {
      if Pos(width, height, k, r', c) == i {
        PosUnique(width, height, k, r', c, layer, row, col);
      }
    }
  }

  /**
   * The program on the contents of the input file: the last character
   * (the newline) is dropped, the digits fill the layers, and the result is
   * the checksum and the image; a file that is empty, dimensions that
   * `Unpack` refuses, or a character other than a digit before the file's
   * last, panic.
   */
  function Decoded(file: string, width: int, height: int): Numbers.Option<(nat, Layer)>
  {
    if file == [] then Numbers.None
    else
      var input := file[..|file| - 1];
      if !Divisor(width, height) then Numbers.None
      else if width <= 0 || height <= 0 then
        if input == [] then Numbers.Some((Select([]).1, Flattened([]))) else Numbers.None
      else if !Numbers.AllDigits(input) then Numbers.None
      else
        var layers := Layered(input, width, height);
        Numbers.Some((Select(layers).1, Flattened(layers)))
  }

  /** `main` after the width and height are read. */
  method Decode(file: string, width: int, height: int) returns (r: Numbers.Option<(nat, Layer)>)
    ensures r == Decoded(file, width, height)
  {
    if |file| == 0 {
      return Numbers.None;
    }
    var layers := Unpack(file[..|file| - 1], width, height);
    if layers.None? {
      return Numbers.None;
    }
    var checksum := Checksum(layers.value);
    var image := Flatten(layers.value);
    return Numbers.Some((checksum, image));
  }
}
