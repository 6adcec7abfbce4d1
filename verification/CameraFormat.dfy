/** Format negotiation of the camera's capture queue, in unsigned 32-bit arithmetic. */
module CameraFormat {
  const YUV420M: nat := 0x32314D59
  const NV12: nat := 0x3231564E
  const NV12M: nat := 0x32314D4E
  const NV21M: nat := 0x31324D4E
  const JPEG: nat := 0x4745504A
  const JPEG_DEFAULT: nat := 0x10_0000
  const MIN_SIDE: nat := 2
  const MAX_SIDE: nat := 8192
  const MAX_PLANES: nat := 3
  const TWO_32: nat := 0x1_0000_0000

  type u32 = x: nat | x < TWO_32

  datatype Size = Size(width: u32, height: u32)

  datatype FormatRaw = Format(fourcc: u32, depth: seq<nat>, rowDepth: seq<nat>, numPlanes: nat, sizes: seq<Size>,
                              colorspace: u32)

  /** A table entry: up to three planes of at most 32 bits a pixel, and sizes within the limits. */
  predicate GoodFormat(f: FormatRaw) {
    && |f.depth| == |f.rowDepth| == MAX_PLANES && f.numPlanes <= MAX_PLANES && f.sizes != []
    && (forall i :: 0 <= i < MAX_PLANES ==> f.depth[i] <= 32 && f.rowDepth[i] <= 32)
    && (forall k :: 0 <= k < |f.sizes| ==>
         MIN_SIDE <= f.sizes[k].width <= MAX_SIDE && MIN_SIDE <= f.sizes[k].height <= MAX_SIDE)
  }

  datatype Plane = Plane(bytesperline: u32, sizeimage: u32, reserved: nat)

  /** `v4l2_pix_format_mplane` */
  datatype Pix = Pix(pixelformat: u32, width: u32, height: u32, field: u32, numPlanes: nat, planes: seq<Plane>,
                     flags: nat, colorspace: u32, encoding: nat, quantization: nat, transfer: nat,
                     reserved: nat, requestFd: int)

  /** The first entry with the code, or the table's end. */
  function FindFormat(formats: seq<FormatRaw>, fourcc: u32, from: nat): (r: nat)
    ensures from <= |formats| ==> from <= r <= |formats|
    ensures r < |formats| ==> formats[r].fourcc == fourcc
    decreases |formats| - from
  {
    if from >= |formats| then from
    else if formats[from].fourcc == fourcc then from
    else FindFormat(formats, fourcc, from + 1)
  }

  function Clamp(x: u32): u32 { if x < MIN_SIDE then MIN_SIDE else if x > MAX_SIDE then MAX_SIDE else x }

  /** Rounding up to a multiple, as u32. */
  function RoundUp(x: u32, m: nat): u32
    requires m > 0
  {
    (x + (m - 1)) / m * m % TWO_32
  }

  predicate Aligned(fourcc: u32) { fourcc == YUV420M || fourcc == NV12 || fourcc == NV12M || fourcc == NV21M }

  /** The plane of a raw format, each product cut to 32 bits. */
  function PlaneOf(f: FormatRaw, i: nat, w: u32, h: u32): Plane
    requires i < |f.depth| && i < |f.rowDepth|
  {
    Plane(w * f.rowDepth[i] % TWO_32 / 8, h * w % TWO_32 * f.depth[i] % TWO_32 / 8, 0)
  }

  function JpegSize(x: u32): u32 { if RoundUp(x, 128) == 0 then JPEG_DEFAULT else RoundUp(x, 128) }

  function Chosen(p: Pix, formats: seq<FormatRaw>): (r: FormatRaw)
    requires formats != []
    ensures r in formats
  {
    var k := FindFormat(formats, p.pixelformat, 0);
    if k < |formats| then formats[k] else formats[FindFormat(formats, formats[0].fourcc, 0)]
  }

  function ChosenSize(p: Pix, f: FormatRaw): Size
    requires f.sizes != []
  {
    var s := if Size(p.width, p.height) in f.sizes then Size(p.width, p.height) else f.sizes[0];
    Size(Clamp(s.width), Clamp(s.height))
  }

  predicate GoodTable(formats: seq<FormatRaw>) { formats != [] && forall f :: f in formats ==> GoodFormat(f) }

  /** The planes of format `f` at `w` by `h`: a JPEG keeps the size asked for, rounded up. */
  function PlanesOf(f: FormatRaw, planes: seq<Plane>, w: u32, h: u32): (r: seq<Plane>)
    requires |planes| == MAX_PLANES && GoodFormat(f)
    ensures |r| == MAX_PLANES
  {
    seq(MAX_PLANES, i requires 0 <= i < MAX_PLANES =>
      if f.fourcc == JPEG then
        if i == 0 then Plane(0, JpegSize(planes[0].sizeimage), if f.numPlanes > 0 then 0 else planes[0].reserved)
        else planes[i].(reserved := if i < f.numPlanes then 0 else planes[i].reserved)
      else if i < f.numPlanes then PlaneOf(f, i, w, h)
      else planes[i])
  }

  /** The aligned size the planes are measured by. */
  function Measured(fourcc: u32, s: Size): Size {
    if Aligned(fourcc) then Size(RoundUp(s.width, 16), RoundUp(s.height, 32)) else s
  }

  /** What the negotiation leaves of `p`. */
  function Tried(p: Pix, formats: seq<FormatRaw>): Pix
    requires |p.planes| == MAX_PLANES && GoodTable(formats)
  {
    var f := Chosen(p, formats);
    var s := ChosenSize(p, f);
    var m := Measured(f.fourcc, s);
    Pix(f.fourcc, s.width, s.height, 1, f.numPlanes, PlanesOf(f, p.planes, m.width, m.height),
        0, f.colorspace, 0, 0, 0, 0, 0)
  }

  class PixFormat {
    var pixelformat: u32
    var width: u32
    var height: u32
    var field: u32
    var numPlanes: nat
    const planes: array<Plane>
    var flags: nat
    var colorspace: u32
    var encoding: nat
    var quantization: nat
    var transfer: nat
    var reserved: nat
    var requestFd: int

    ghost function Contents(): Pix
      reads this, planes
    {
      Pix(pixelformat, width, height, field, numPlanes, planes[..], flags, colorspace, encoding, quantization,
          transfer, reserved, requestFd)
    }

    /** `mtk_camera_find_format` */
    static method Find(formats: seq<FormatRaw>, fourcc: u32) returns (k: nat)
      ensures k == FindFormat(formats, fourcc, 0) <= |formats|
      ensures forall j :: 0 <= j < k ==> formats[j].fourcc != fourcc
      ensures k < |formats| ==> formats[k].fourcc == fourcc
    {
      k := 0;
      while k < |formats| && formats[k].fourcc != fourcc
        invariant k <= |formats| && FindFormat(formats, fourcc, 0) == FindFormat(formats, fourcc, k)
        invariant forall j :: 0 <= j < k ==> formats[j].fourcc != fourcc
      {
        k := k + 1;
      }
    }

    /** `mtk_camera_find_sizes` */
    static method FindSize(sizes: seq<Size>, s: Size) returns (found: bool)
      ensures found <==> s in sizes
    {
      for k := 0 to |sizes|
        invariant s !in sizes[..k]
      {
        if sizes[k] == s { return true; }
      }
      assert sizes[..|sizes|] == sizes;
      return false;
    }

    /** `mtk_camera_try_fmt_mplane` */
    method TryFmt(formats: seq<FormatRaw>)
      requires planes.Length == MAX_PLANES && GoodTable(formats)
      modifies this, planes
      ensures Contents() == Tried(old(Contents()), formats)
    {
      GoodChosen(Contents(), formats);
      hide PlanesOf, RoundUp, Clamp, FindFormat, GoodFormat, GoodTable, Chosen, ChosenSize;
      ghost var p := Contents();
      var fmt := PickFormat(formats);
      SetSize(fmt, p);
      field, numPlanes := 1, fmt.numPlanes;
      MeasurePlanes(fmt);
      Reset(fmt.colorspace);
    }

    /** The planes are measured by the aligned size; the size itself is put back afterwards. */
    method MeasurePlanes(fmt: FormatRaw)
      requires planes.Length == MAX_PLANES && GoodFormat(fmt) && numPlanes == fmt.numPlanes && pixelformat == fmt.fourcc
      modifies this`width, this`height, planes
      ensures width == old(width) && height == old(height)
      ensures var m := Measured(fmt.fourcc, Size(width, height));
        planes[..] == PlanesOf(fmt, old(planes[..]), m.width, m.height)
    {
      hide PlanesOf, RoundUp, GoodFormat;
      var orgW, orgH := width, height;
      if Aligned(pixelformat) {
        width, height := RoundUp(width, 16), RoundUp(height, 32);
      }
      FillPlanes(fmt);
      if Aligned(pixelformat) { width, height := orgW, orgH; }
    }

    /** The fields userspace does not choose. */
    method Reset(space: u32)
      modifies this`flags, this`colorspace, this`encoding, this`quantization
      modifies this`transfer, this`reserved, this`requestFd
      ensures flags == 0 && colorspace == space
      ensures encoding == 0 && quantization == 0 && transfer == 0 && reserved == 0 && requestFd == 0
    {
      flags, colorspace := 0, space;
      encoding, quantization, transfer, reserved, requestFd := 0, 0, 0, 0, 0;
    }

    /** The format asked for, or the first of the table. */
    method PickFormat(formats: seq<FormatRaw>) returns (fmt: FormatRaw)
      requires formats != []
      modifies this`pixelformat
      ensures fmt == Chosen(old(Contents()), formats) && pixelformat == fmt.fourcc
    {
      var k := Find(formats, pixelformat);
      if k == |formats| {
        pixelformat := formats[0].fourcc;
        k := Find(formats, pixelformat);
      }
      FirstIsFound(formats);
      fmt := formats[k];
    }

    /** The size: a listed one, clamped. */
    method SetSize(fmt: FormatRaw, ghost p: Pix)
      requires fmt.sizes != [] && p.width == width && p.height == height
      modifies this`width, this`height
      ensures Size(width, height) == ChosenSize(p, fmt)
    {
      var found := FindSize(fmt.sizes, Size(width, height));
      if !found {
        width, height := fmt.sizes[0].width, fmt.sizes[0].height;
      }
      width, height := Clamp(width), Clamp(height);
    }

    /** The loops over the planes. */
    method FillPlanes(fmt: FormatRaw)
      requires planes.Length == MAX_PLANES && GoodFormat(fmt) && numPlanes == fmt.numPlanes
      modifies planes
      ensures planes[..] == PlanesOf(fmt, old(planes[..]), width, height)
    {
      for i := 0 to numPlanes
        invariant forall j :: 0 <= j < MAX_PLANES ==>
          planes[j] == old(planes[j]).(reserved := if j < i then 0 else old(planes[j]).reserved)
      {
        planes[i] := planes[i].(reserved := 0);
      }
      if fmt.fourcc == JPEG {
        var size := RoundUp(planes[0].sizeimage, 128);
        if size == 0 { size := JPEG_DEFAULT; }
        planes[0] := planes[0].(bytesperline := 0, sizeimage := size);
      } else {
        ghost var cleared := planes[..];
        for i := 0 to numPlanes
          invariant forall j :: 0 <= j < MAX_PLANES ==>
            planes[j] == if j < i then PlaneOf(fmt, j, width, height) else cleared[j]
        {
          var line := width * fmt.rowDepth[i] % TWO_32 / 8;
          var size := height * width % TWO_32 * fmt.depth[i] % TWO_32 / 8;
          planes[i] := planes[i].(bytesperline := line, sizeimage := size);
        }
      }
    }
  }

  lemma FirstIsFound(formats: seq<FormatRaw>)
    requires formats != []
    ensures FindFormat(formats, formats[0].fourcc, 0) < |formats|
  {
  }

  // --------------------------------------------------------------------- main results

  lemma RoundTwice(x: u32)
    ensures RoundUp(RoundUp(x, 128), 128) == RoundUp(x, 128)
    ensures JpegSize(JpegSize(x)) == JpegSize(x)
  {
  }

  lemma GoodChosen(p: Pix, formats: seq<FormatRaw>)
    requires GoodTable(formats)
    ensures formats != [] && GoodFormat(Chosen(p, formats)) && Chosen(p, formats).sizes != []
    ensures ChosenSize(p, Chosen(p, formats)) in Chosen(p, formats).sizes
    ensures formats[FindFormat(formats, Chosen(p, formats).fourcc, 0)] == Chosen(p, formats)
    ensures FindFormat(formats, Chosen(p, formats).fourcc, 0) < |formats|
  {
    FirstIsFound(formats);
  }

  /** Trying the result again changes nothing. */
  lemma TryIsIdempotent(p: Pix, formats: seq<FormatRaw>)
    requires |p.planes| == MAX_PLANES && GoodTable(formats)
    ensures Tried(Tried(p, formats), formats) == Tried(p, formats)
  {
    var q := Tried(p, formats);
    var f := Chosen(p, formats);
    GoodChosen(p, formats);
    var s := ChosenSize(p, f);
    assert ChosenSize(q, f) == s;
    RoundTwice(p.planes[0].sizeimage);
    var m := Measured(f.fourcc, s);
    assert PlanesOf(f, q.planes, m.width, m.height) == q.planes;
  }

  /** A listed code is kept, and any other becomes the table's first; the entry is the first with its
      code. A size the entry lists is kept, and any other becomes its first. */
  lemma ListedIsKept(p: Pix, formats: seq<FormatRaw>) returns (k: nat)
    requires |p.planes| == MAX_PLANES && GoodTable(formats)
    ensures k < |formats| && forall j :: 0 <= j < k ==> formats[j].fourcc != formats[k].fourcc
    ensures formats[k].fourcc ==
      if exists j :: 0 <= j < |formats| && formats[j].fourcc == p.pixelformat then p.pixelformat else formats[0].fourcc
    ensures var q, f := Tried(p, formats), formats[k];
      && GoodFormat(f) && q.pixelformat == f.fourcc && q.numPlanes == f.numPlanes && q.colorspace == f.colorspace
      && Size(q.width, q.height) == (if Size(p.width, p.height) in f.sizes then Size(p.width, p.height) else f.sizes[0])
      && q.field == 1 && q.flags == q.encoding == q.quantization == q.transfer == q.reserved == q.requestFd == 0
  {
    GoodChosen(p, formats);
    FirstIsFirst(formats, p.pixelformat, 0);
    FirstIsFirst(formats, formats[0].fourcc, 0);
    k := FindFormat(formats, p.pixelformat, 0);
    if k == |formats| { k := FindFormat(formats, formats[0].fourcc, 0); }
    assert Chosen(p, formats) == formats[k] && GoodFormat(formats[k]);
  }

  lemma {:induction false} FirstIsFirst(formats: seq<FormatRaw>, fourcc: u32, from: nat)
    requires from <= |formats|
    ensures forall j :: from <= j < FindFormat(formats, fourcc, from) ==> formats[j].fourcc != fourcc
    decreases |formats| - from
  {
    if from < |formats| && formats[from].fourcc != fourcc { FirstIsFirst(formats, fourcc, from + 1); }
  }

  /** A JPEG keeps the size asked for, rounded up to a multiple of 128, or takes the default where that
      is 0 in 32 bits; its other planes, and those past the format's number, stay. */
  lemma JpegPlanes(p: Pix, formats: seq<FormatRaw>, i: nat)
    requires |p.planes| == MAX_PLANES && GoodTable(formats) && i < MAX_PLANES
    ensures var q, was := Tried(p, formats), p.planes[i];
      && (q.pixelformat == 0x4745504A && i == 0 ==>
           && q.planes[0].bytesperline == 0
           && (if 0 < was.sizeimage <= 0xFFFF_FF80
               then was.sizeimage <= q.planes[0].sizeimage < was.sizeimage + 128 && q.planes[0].sizeimage % 128 == 0
               else q.planes[0].sizeimage == 0x10_0000))
      && (i > 0 && (q.pixelformat == 0x4745504A || i >= q.numPlanes) ==>
           q.planes[i] == was.(reserved := if i < q.numPlanes then 0 else was.reserved))
  {
    GoodChosen(p, formats);
    JpegRounds(p.planes[0].sizeimage);
  }

  lemma JpegRounds(x: u32)
    ensures if 0 < x <= 0xFFFF_FF80 then x <= JpegSize(x) < x + 128 && JpegSize(x) % 128 == 0
            else JpegSize(x) == 0x10_0000
  {
  }

  /** The result names a listed format, at a size it lists. */
  lemma ResultIsListed(p: Pix, formats: seq<FormatRaw>)
    requires |p.planes| == MAX_PLANES && GoodTable(formats)
    ensures var q := Tried(p, formats);
      exists f :: f in formats && f.fourcc == q.pixelformat && Size(q.width, q.height) in f.sizes
        && q.numPlanes == f.numPlanes && q.colorspace == f.colorspace
  {
    GoodChosen(p, formats);
    assert Chosen(p, formats) in formats;
  }

  /** No product of a raw format wraps: the sizes are the exact ones of the aligned picture. */
  lemma NothingWraps(p: Pix, formats: seq<FormatRaw>, i: nat)
    requires |p.planes| == MAX_PLANES && GoodTable(formats)
    requires var f := Chosen(p, formats); GoodFormat(f) && f.fourcc != JPEG && i < f.numPlanes
    ensures var f := Chosen(p, formats); var q := Tried(p, formats);
      var aligned := f.fourcc in {0x32314D59, 0x3231564E, 0x32314D4E, 0x31324D4E};
      var w: nat := if aligned then (q.width + 15) / 16 * 16 else q.width;
      var h: nat := if aligned then (q.height + 31) / 32 * 32 else q.height;
      && w <= MAX_SIDE && h <= MAX_SIDE
      && h * w * f.depth[i] < TWO_32 && w * f.rowDepth[i] < TWO_32
      && q.planes[i].sizeimage == h * w * f.depth[i] / 8 && q.planes[i].bytesperline == w * f.rowDepth[i] / 8
      && q.planes[i].reserved == 0
  {
    var f := Chosen(p, formats);
    GoodChosen(p, formats);
    var s := ChosenSize(p, f);
    AlignFits(s.width, 16);
    AlignFits(s.height, 32);
    hide PlaneOf, RoundUp, Clamp, FindFormat, Chosen, ChosenSize;
    var m := Measured(f.fourcc, s);
    ProductsFit(m.width, m.height, f.depth[i], f.rowDepth[i]);
    PlaneExact(f, i, m.width, m.height);
  }

  lemma AlignFits(x: u32, m: nat)
    requires x <= MAX_SIDE && (m == 16 || m == 32)
    ensures RoundUp(x, m) == (x + (m - 1)) / m * m <= MAX_SIDE
  {
  }

  lemma PlaneExact(f: FormatRaw, i: nat, w: u32, h: u32)
    requires i < |f.depth| && i < |f.rowDepth|
    requires h * w < TWO_32 && h * w * f.depth[i] < TWO_32 && w * f.rowDepth[i] < TWO_32
    ensures PlaneOf(f, i, w, h) == Plane(w * f.rowDepth[i] / 8, h * w * f.depth[i] / 8, 0)
  {
    Fits(w * f.rowDepth[i]);
    Fits(h * w);
    Fits(h * w * f.depth[i]);
  }

  lemma Fits(x: nat)
    requires x < TWO_32
    ensures x % TWO_32 == x
  {
  }

  lemma ProductsFit(w: nat, h: nat, d: nat, r: nat)
    requires w <= MAX_SIDE && h <= MAX_SIDE && d <= 32 && r <= 32
    ensures h * w < TWO_32 && h * w * d < TWO_32 && w * r < TWO_32
  {
    MulLe(h, MAX_SIDE, w, MAX_SIDE);
    MulLe(h * w, MAX_SIDE * MAX_SIDE, d, 32);
    MulLe(w, MAX_SIDE, r, 32);
  }

  lemma MulLe(a: nat, b: nat, c: nat, d: nat)
    requires a <= b && c <= d
    ensures a * c <= b * d
  {
    assert a * c <= b * c by { assert (b - a) * c >= 0; }
    assert b * c <= b * d by { assert b * (d - c) >= 0; }
  }
}
