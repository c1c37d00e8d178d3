/**
 * The pure tables of the skybox maker: the six faces with their camera angles, sizes and
 * shifts, the directive files handed to vtex, and the two materials written per face.
 */
module Skybox {
  import opened Wrappers
  import opened Paths
  import Text
  import Vmt
  import Tables

  datatype Face = Ft | Lf | Bk | Up | Rt | Dn

  /** The order the faces are rendered and compiled in. */
  const FaceOrder: seq<Face> := [Ft, Lf, Bk, Up, Rt, Dn]

  /** The suffix a face gives its file and texture names. */
  function Tag(f: Face): string
  {
    match f
    case Ft => "ft"
    case Lf => "lf"
    case Bk => "bk"
    case Up => "up"
    case Rt => "rt"
    case Dn => "dn"
  }

  /** The face a suffix names. */
  function FaceByTag(t: string): (r: Option<Face>)
    ensures r.Some? ==> Tag(r.value) == t
  {
    if t == "ft" then Some(Ft)
    else if t == "lf" then Some(Lf)
    else if t == "bk" then Some(Bk)
    else if t == "up" then Some(Up)
    else if t == "rt" then Some(Rt)
    else if t == "dn" then Some(Dn)
    else None
  }

  /** Each face comes exactly once in the render order, and its suffix names it back. */
  lemma FaceOrderIsPermutation(f: Face)
    ensures |FaceOrder| == 6
    ensures forall i, j :: 0 <= i < j < |FaceOrder| ==> FaceOrder[i] != FaceOrder[j]
    ensures f in FaceOrder
    ensures FaceByTag(Tag(f)) == Some(f)
  {
  }

  // ---------------------------------------------------------------------------
  // Sizes
  // ---------------------------------------------------------------------------

  /** The square sizes offered. */
  const SkySizes: seq<nat> := [8, 16, 32, 64, 128, 256, 512, 1024, 2048, 4096]

  /**
   * The settings the tables read: the sky name, the square size, half size (only the top half
   * of the side faces), no bottom, HDR or LDR, and compressed HDR.
   */
  datatype Sky = Sky(name: string, size: nat, halfsize: bool, nobottom: bool, hdr: bool, hdrCompressed: bool)

  /** `int(size / 2)` when half size is on, the size otherwise. */
  function Height(sky: Sky): (h: nat)
    ensures sky.halfsize ==> 2 * h <= sky.size < 2 * h + 2
    ensures !sky.halfsize ==> h == sky.size
  {
    if sky.halfsize then sky.size / 2 else sky.size
  }

  /** Width and height a face is rendered at; the bottom shrinks to 8 by 8 when hidden or cut off. */
  function FaceSize(sky: Sky, f: Face): (int, int)
  {
    match f
    case Up => (sky.size, sky.size)
    case Dn => if sky.nobottom || sky.halfsize then (8, 8) else (sky.size, sky.size)
    case _ => (sky.size, Height(sky))
  }

  /** A side face of a half-size sky: the only faces that are not square. */
  predicate Cut(sky: Sky, f: Face)
  {
    sky.halfsize && f != Up && f != Dn
  }

  /** The vertical camera shift, which keeps the upper half of a cut face. */
  function CamShift(sky: Sky, f: Face): real
  {
    if Cut(sky, f) then 0.25 else 0.0
  }

  /** With one of the offered sizes, a face is non-square exactly when it is cut, and then it is twice as wide as tall. */
  lemma CutFacesAreTheNonSquare(sky: Sky, f: Face)
    requires sky.size in SkySizes
    ensures FaceSize(sky, f).0 != FaceSize(sky, f).1 <==> Cut(sky, f)
    ensures Cut(sky, f) ==> FaceSize(sky, f).0 == 2 * FaceSize(sky, f).1
    ensures CamShift(sky, f) != 0.0 <==> FaceSize(sky, f).0 != FaceSize(sky, f).1
  {
  }

  /**
   * The size table: the top face is always `size` square; each side face is `size` wide and
   * `Height` tall; the bottom is 8 by 8 when hidden or cut off and `size` square otherwise.
   * A sky with neither option renders six `size` squares.
   */
  lemma FaceSizes(sky: Sky, f: Face)
    ensures f == Up ==> FaceSize(sky, f) == (sky.size, sky.size)
    ensures f == Dn && (sky.nobottom || sky.halfsize) ==> FaceSize(sky, f) == (8, 8)
    ensures f == Dn && !sky.nobottom && !sky.halfsize ==> FaceSize(sky, f) == (sky.size, sky.size)
    ensures f != Up && f != Dn ==>
      && FaceSize(sky, f).0 == sky.size
      && (sky.halfsize ==> 2 * FaceSize(sky, f).1 <= sky.size < 2 * FaceSize(sky, f).1 + 2)
      && (!sky.halfsize ==> FaceSize(sky, f).1 == sky.size)
    ensures !sky.nobottom && !sky.halfsize ==> FaceSize(sky, f) == (sky.size, sky.size)
  {
  }

  /** Hiding the bottom changes the size of the bottom face only. */
  lemma NoBottomOnlyShrinksDn(sky: Sky, f: Face, b: bool)
    requires f != Dn
    ensures FaceSize(sky.(nobottom := b), f) == FaceSize(sky, f)
  {
  }

  /** A cut face's camera is shifted up by a quarter of the frame; no other face is shifted. */
  lemma CamShiftValues(sky: Sky, f: Face)
    ensures Cut(sky, f) ==> CamShift(sky, f) == 0.25
    ensures !Cut(sky, f) ==> CamShift(sky, f) == 0.0
    ensures f == Up || f == Dn ==> CamShift(sky, f) == 0.0
  {
  }

  function Pow2(k: nat): (p: nat)
    ensures p >= 1
  {
    if k == 0 then 1 else 2 * Pow2(k - 1)
  }

  lemma {:induction false} Pow2IsPowerOfTwo(k: nat)
    ensures Tables.IsPowerOfTwo(Pow2(k))
    decreases k
  {
    if k > 0 {
      Pow2IsPowerOfTwo(k - 1);
      assert Pow2(k) / 2 == Pow2(k - 1);
    }
  }

  /** The offered sizes are the powers of two from 2^3 to 2^12. */
  lemma SkySizesArePow2(s: nat)
    requires s in SkySizes
    ensures exists k :: 3 <= k <= 12 && s == Pow2(k)
  {
    assert Pow2(3) == 8;
    assert Pow2(4) == 16;
    assert Pow2(5) == 32;
    assert Pow2(6) == 64;
    assert Pow2(7) == 128;
    assert Pow2(8) == 256;
    assert Pow2(9) == 512;
    assert Pow2(10) == 1024;
    assert Pow2(11) == 2048;
    assert Pow2(12) == 4096;
  }

  /** With one of the offered sizes, every face side is a power of two. */
  lemma FaceSidesArePowersOfTwo(sky: Sky, f: Face)
    requires sky.size in SkySizes
    ensures FaceSize(sky, f).0 >= 4 && Tables.IsPowerOfTwo(FaceSize(sky, f).0)
    ensures FaceSize(sky, f).1 >= 4 && Tables.IsPowerOfTwo(FaceSize(sky, f).1)
  {
    SkySizesArePow2(sky.size);
    var k :| 3 <= k <= 12 && sky.size == Pow2(k);
    Pow2IsPowerOfTwo(k);
    Pow2IsPowerOfTwo(k - 1);
    Pow2IsPowerOfTwo(3);
    assert Pow2(3) == 8;
    assert Pow2(k) == 2 * Pow2(k - 1);
    assert Pow2(k - 1) >= 4 by {
      Pow2Grows(2, k - 1);
      assert Pow2(2) == 4;
    }
  }

  lemma {:induction false} Pow2Grows(j: nat, k: nat)
    requires j <= k
    ensures Pow2(j) <= Pow2(k)
    decreases k - j
  {
    if j < k {
      Pow2Grows(j, k - 1);
    }
  }

  // ---------------------------------------------------------------------------
  // vtex directive files
  // ---------------------------------------------------------------------------

  /** The directive list for an HDR face, with `''` where a directive is switched off. */
  function HdrDirectives(sky: Sky): seq<string>
  {
    [ "nolod 1",
      "nomip 1",
      if sky.size > 256 then "nonice 1" else "",
      if sky.hdr then "pfm 1" else "",
      if sky.hdr then "pfmscale 1" else "",
      if sky.hdr && !sky.hdrCompressed then "nocompress 1" else "",
      "clamps 1",
      "clampt 1",
      if sky.hdrCompressed then "pointsample 1" else "" ]
  }

  /** `'\n'.join(filter(None, ...))`. */
  function DirectiveText(directives: seq<string>): string
  {
    Text.Join(Text.NonEmpty(directives), '\n')
  }

  const LdrDirectives: seq<string> := ["nolod 1", "clamps 1", "clampt 1", "nomip 1", "nonice 1", "nocompress 1"]

  /** The lines of a written directive file are exactly the non-empty directives, in order. */
  lemma DirectiveLines(directives: seq<string>)
    requires exists i :: 0 <= i < |directives| && directives[i] != ""
    requires forall i :: 0 <= i < |directives| ==> '\n' !in directives[i]
    ensures Text.Split(DirectiveText(directives), '\n') == Text.NonEmpty(directives)
  {
    var kept := Text.NonEmpty(directives);
    var i :| 0 <= i < |directives| && directives[i] != "";
    assert directives[i] in kept;
    forall j | 0 <= j < |kept|
      ensures '\n' !in kept[j]
    {
      assert kept[j] in directives;
    }
    Text.SplitJoin(kept, '\n');
  }

  /** The HDR directive file's lines are its non-empty directives, in list order. */
  lemma HdrDirectiveFile(sky: Sky)
    ensures Text.Split(DirectiveText(HdrDirectives(sky)), '\n') == Text.NonEmpty(HdrDirectives(sky))
  {
    var d := HdrDirectives(sky);
    assert d[0] != "";
    assert forall i :: 0 <= i < |d| ==> '\n' !in d[i];
    DirectiveLines(d);
  }

  /** The four fixed directives are always in the HDR directive file. */
  lemma HdrFixedLines(sky: Sky)
    ensures var lines := Text.Split(DirectiveText(HdrDirectives(sky)), '\n');
      "nolod 1" in lines && "nomip 1" in lines && "clamps 1" in lines && "clampt 1" in lines
  {
    HdrDirectiveFile(sky);
    var d := HdrDirectives(sky);
    DirectiveKept(d, 0);
    DirectiveKept(d, 1);
    DirectiveKept(d, 6);
    DirectiveKept(d, 7);
  }

  /** A non-empty directive is among the kept ones. */
  lemma DirectiveKept(d: seq<string>, i: nat)
    requires i < |d| && d[i] != ""
    ensures d[i] in Text.NonEmpty(d)
  {
    assert d[i] in d;
  }

  /** `nonice 1` is written iff the size exceeds 256. */
  lemma HdrNoNiceLine(sky: Sky)
    ensures "nonice 1" in Text.Split(DirectiveText(HdrDirectives(sky)), '\n') <==> sky.size > 256
  {
    HdrDirectiveFile(sky);
    var d := HdrDirectives(sky);
    assert sky.size > 256 ==> d[2] == "nonice 1";
    assert forall i :: 0 <= i < |d| && i != 2 ==> d[i] != "nonice 1";
  }

  /** `pfm 1` is written iff the sky is HDR. */
  lemma HdrPfmLine(sky: Sky)
    ensures "pfm 1" in Text.Split(DirectiveText(HdrDirectives(sky)), '\n') <==> sky.hdr
  {
    HdrDirectiveFile(sky);
    var d := HdrDirectives(sky);
    assert sky.hdr ==> d[3] == "pfm 1";
    assert forall i :: 0 <= i < |d| && i != 3 ==> d[i] != "pfm 1";
  }

  /** `pfmscale 1` is written iff the sky is HDR. */
  lemma HdrPfmScaleLine(sky: Sky)
    ensures "pfmscale 1" in Text.Split(DirectiveText(HdrDirectives(sky)), '\n') <==> sky.hdr
  {
    HdrDirectiveFile(sky);
    var d := HdrDirectives(sky);
    assert sky.hdr ==> d[4] == "pfmscale 1";
    assert forall i :: 0 <= i < |d| && i != 4 ==> d[i] != "pfmscale 1";
  }

  /** `nocompress 1` is written iff the sky is HDR and uncompressed; `pointsample 1` iff compressed. */
  lemma HdrCompressionLines(sky: Sky)
    ensures var lines := Text.Split(DirectiveText(HdrDirectives(sky)), '\n');
      && ("nocompress 1" in lines <==> sky.hdr && !sky.hdrCompressed)
      && ("pointsample 1" in lines <==> sky.hdrCompressed)
  {
    HdrDirectiveFile(sky);
    var d := HdrDirectives(sky);
    assert sky.hdr && !sky.hdrCompressed ==> d[5] == "nocompress 1";
    assert sky.hdrCompressed ==> d[8] == "pointsample 1";
    assert forall i :: 0 <= i < |d| && i != 5 ==> d[i] != "nocompress 1";
    assert forall i :: 0 <= i < |d| && i != 8 ==> d[i] != "pointsample 1";
  }

  /** The LDR directive file is always the same six lines. */
  lemma LdrDirectiveFile()
    ensures Text.Split(DirectiveText(LdrDirectives), '\n') == LdrDirectives
  {
    var d := LdrDirectives;
    assert forall i :: 0 <= i < |d| ==> d[i] != "" && '\n' !in d[i];
    Text.NonEmptyKeepsAll(d);
    DirectiveLines(d);
  }

  // ---------------------------------------------------------------------------
  // Materials
  // ---------------------------------------------------------------------------

  /** `Path('skybox') / name / name`. */
  function TextureBase(sky: Sky): Path
  {
    Join(Join(PurePath(false, ["skybox"]), sky.name), sky.name)
  }

  /** Three fields joined by a separator. */
  lemma JoinThree(x: string, y: string, z: string, sep: char)
    ensures Text.Join([x, y, z], sep) == x + [sep] + y + [sep] + z
  {
    assert [x, y, z][1..] == [y, z];
    assert [y, z][1..] == [z];
    assert Text.Join([y, z], sep) == y + [sep] + z;
    assert Text.Join([x, y, z], sep) == x + [sep] + (y + [sep] + z);
  }

  /** A plain name adds two components to `skybox`. */
  lemma TextureBaseParts(sky: Sky)
    requires IsPart(sky.name)
    ensures TextureBase(sky) == PurePath(false, ["skybox", sky.name, sky.name])
  {
    JoinName(PurePath(false, ["skybox"]), sky.name);
    JoinName(Join(PurePath(false, ["skybox"]), sky.name), sky.name);
  }

  /** An empty name adds nothing. */
  lemma TextureBaseEmpty(sky: Sky)
    requires sky.name == ""
    ensures TextureBase(sky) == PurePath(false, ["skybox"])
  {
    assert Text.Split("", Sep) == [""];
    assert KeepParts([""]) == [];
    assert Components("") == [];
  }

  /** For a plain name the texture base is `skybox/<name>/<name>`; an empty name leaves `skybox`. */
  lemma TextureBaseText(sky: Sky)
    ensures IsPart(sky.name) ==> ToString(TextureBase(sky)) == "skybox/" + sky.name + "/" + sky.name
    ensures sky.name == "" ==> ToString(TextureBase(sky)) == "skybox"
  {
    var n := sky.name;
    if IsPart(n) {
      TextureBaseParts(sky);
      JoinThree("skybox", n, n, Sep);
      assert "skybox" + [Sep] + n + [Sep] + n == "skybox/" + n + "/" + n;
    } else if n == "" {
      TextureBaseEmpty(sky);
      assert Text.Join(["skybox"], Sep) == "skybox";
    }
  }

  const TransformText: string := "center 0 0 scale 1 2 rotate 0 translate 0 0"

  /** The texture transform: only cut faces stretch their texture back to full height. */
  function Transform(sky: Sky, f: Face): Vmt.Value
  {
    if Cut(sky, f) then Vmt.Str(TransformText) else Vmt.NoneValue
  }

  /** The key of the HDR texture. */
  function HdrKey(sky: Sky): string
  {
    if sky.hdrCompressed then "hdrcompressedtexture" else "hdrbasetexture"
  }

  function HdrMaterial(sky: Sky, f: Face): Vmt.Material
  {
    var base := ToString(TextureBase(sky));
    var m := Vmt.SetShader(Vmt.Fresh(), Vmt.Str("sky"));
    Vmt.SetParams(m, Vmt.Table([
      ("basetexture", Vmt.Str(base + Tag(f))),
      (HdrKey(sky), Vmt.Str(base + "_hdr" + Tag(f))),
      ("basetexturetransform", Transform(sky, f))]))
  }

  function LdrMaterial(sky: Sky, f: Face): Vmt.Material
  {
    var base := ToString(TextureBase(sky));
    var m := Vmt.SetShader(Vmt.Fresh(), Vmt.Str("UnlitGeneric"));
    Vmt.SetParams(m, Vmt.Table([
      ("nofog", Vmt.Int(1)),
      ("ignorez", Vmt.Int(1)),
      ("basetexture", Vmt.Str(base + Tag(f))),
      ("basetexturetransform", Transform(sky, f))]))
  }

  /** A name a material can be written for: a single path component with no quote in it. */
  predicate PlainName(name: string)
  {
    IsPart(name) && '"' !in name
  }

  /** The transform line a cut face adds. */
  function TransformPairs(sky: Sky, f: Face): seq<(string, string)>
  {
    if Cut(sky, f) then [("basetexturetransform", TransformText)] else []
  }

  lemma NotBlank(s: string)
    requires |s| > 0 && !Text.IsSpace(s[0])
    ensures !Text.Blank(s)
  {
  }

  /** A string value under a key, both starting with a visible character, is written. */
  lemma KeptStr(k: string, s: string)
    requires |k| > 0 && !Text.IsSpace(k[0]) && |s| > 0 && !Text.IsSpace(s[0])
    ensures Vmt.Kept(k, Vmt.Str(s)) && Vmt.RenderValue(Vmt.Str(s)) == s
  {
    NotBlank(k);
    NotBlank(s);
  }

  /** The transform item reads back as the transform pair exactly on cut faces. */
  lemma TransformKept(sky: Sky, f: Face)
    ensures Vmt.KeptPairs([("basetexturetransform", Transform(sky, f))]) == TransformPairs(sky, f)
  {
    if Cut(sky, f) {
      KeptStr("basetexturetransform", TransformText);
    }
  }

  /** The items of the LDR material. */
  lemma LdrItems(sky: Sky, f: Face)
    requires PlainName(sky.name)
    ensures LdrMaterial(sky, f).params.items ==
      [("nofog", Vmt.Int(1))] + ([("ignorez", Vmt.Int(1))] +
      ([("basetexture", Vmt.Str("skybox/" + sky.name + "/" + sky.name + Tag(f)))] +
       [("basetexturetransform", Transform(sky, f))]))
  {
    TextureBaseText(sky);
  }

  /** `1` is written as `1`, under any visible key. */
  lemma KeptOne(k: string)
    requires |k| > 0 && !Text.IsSpace(k[0])
    ensures Vmt.Kept(k, Vmt.Int(1)) && Vmt.RenderValue(Vmt.Int(1)) == "1"
  {
    assert Vmt.PyStr(Vmt.Int(1)) == "1";
    NotBlank(k);
    NotBlank("1");
  }

  /** The pairs the LDR material keeps. */
  lemma LdrPairs(sky: Sky, f: Face)
    requires PlainName(sky.name)
    ensures Vmt.KeptPairs(LdrMaterial(sky, f).params.items) ==
      [("nofog", "1"), ("ignorez", "1"), ("basetexture", "skybox/" + sky.name + "/" + sky.name + Tag(f))]
      + TransformPairs(sky, f)
  {
    LdrItems(sky, f);
    var bt := "skybox/" + sky.name + "/" + sky.name + Tag(f);
    var last := [("basetexturetransform", Transform(sky, f))];
    KeptOne("nofog");
    KeptOne("ignorez");
    KeptStr("basetexture", bt);
    TransformKept(sky, f);
    Vmt.KeptPairsCons("basetexture", Vmt.Str(bt), last);
    Vmt.KeptPairsCons("ignorez", Vmt.Int(1), [("basetexture", Vmt.Str(bt))] + last);
    Vmt.KeptPairsCons("nofog", Vmt.Int(1), [("ignorez", Vmt.Int(1))] + ([("basetexture", Vmt.Str(bt))] + last));
  }

  /** No quote in a texture name built from a plain sky name. */
  lemma TextureNameNoQuote(sky: Sky, mid: string, f: Face)
    requires PlainName(sky.name) && '"' !in mid
    ensures '"' !in "skybox/" + sky.name + "/" + sky.name + mid + Tag(f)
  {
    assert '"' !in Tag(f);
    assert '"' !in "skybox/";
    assert '"' !in "/";
  }

  /** A string value is rendered as itself. */
  lemma StrNoQuote(s: string)
    requires '"' !in s
    ensures '"' !in Vmt.RenderValue(Vmt.Str(s))
  {
  }

  lemma TransformTextNoQuote()
    ensures '"' !in TransformText
  {
    assert forall i :: 0 <= i < |TransformText| ==> TransformText[i] != '"';
  }

  /** No quote in the rendered transform. */
  lemma TransformNoQuote(sky: Sky, f: Face)
    ensures '"' !in Vmt.RenderValue(Transform(sky, f))
  {
    if Cut(sky, f) {
      TransformTextNoQuote();
      StrNoQuote(TransformText);
    } else {
      assert Vmt.RenderValue(Vmt.NoneValue) == "None";
    }
  }

  /** No quote in the LDR material's keys and values. */
  lemma LdrQuoteFree(sky: Sky, f: Face)
    requires PlainName(sky.name)
    ensures Vmt.QuoteFreeItems(LdrMaterial(sky, f).params.items)
  {
    LdrItems(sky, f);
    var items := LdrMaterial(sky, f).params.items;
    var bt := "skybox/" + sky.name + "/" + sky.name + Tag(f);
    TextureNameNoQuote(sky, "", f);
    assert "skybox/" + sky.name + "/" + sky.name + "" + Tag(f) == bt;
    StrNoQuote(bt);
    TransformNoQuote(sky, f);
    KeptOne("nofog");
    forall i | 0 <= i < |items|
      ensures '"' !in items[i].0 && '"' !in Vmt.RenderValue(items[i].1)
    {
      if i == 0 {
        assert items[i] == ("nofog", Vmt.Int(1));
      } else if i == 1 {
        assert items[i] == ("ignorez", Vmt.Int(1));
      } else if i == 2 {
        assert items[i] == ("basetexture", Vmt.Str(bt));
      } else {
        assert items[i] == ("basetexturetransform", Transform(sky, f));
      }
    }
  }

  /**
   * The LDR material, as read from its text: shader `UnlitGeneric`, then `nofog 1`,
   * `ignorez 1`, the base texture `skybox/<name>/<name><face>`, and the transform on cut faces.
   */
  lemma LdrMaterialText(sky: Sky, f: Face)
    requires PlainName(sky.name)
    ensures Vmt.ToVmt(LdrMaterial(sky, f)).Success?
    ensures Vmt.ReadVmt(Vmt.ToVmt(LdrMaterial(sky, f)).value) == Some(Vmt.Doc("UnlitGeneric",
      [("nofog", "1"), ("ignorez", "1"), ("basetexture", "skybox/" + sky.name + "/" + sky.name + Tag(f))]
      + TransformPairs(sky, f)))
  {
    LdrPairs(sky, f);
    LdrQuoteFree(sky, f);
    Vmt.ReadToVmt(LdrMaterial(sky, f));
  }

  /** The items of the HDR material. */
  lemma HdrItems(sky: Sky, f: Face)
    requires PlainName(sky.name)
    ensures var base := "skybox/" + sky.name + "/" + sky.name;
      HdrMaterial(sky, f).params.items ==
        [("basetexture", Vmt.Str(base + Tag(f)))] + ([(HdrKey(sky), Vmt.Str(base + "_hdr" + Tag(f)))] +
        [("basetexturetransform", Transform(sky, f))])
  {
    TextureBaseText(sky);
  }

  /** The pairs the HDR material keeps. */
  lemma HdrPairs(sky: Sky, f: Face)
    requires PlainName(sky.name)
    ensures var base := "skybox/" + sky.name + "/" + sky.name;
      Vmt.KeptPairs(HdrMaterial(sky, f).params.items) ==
        [("basetexture", base + Tag(f)), (HdrKey(sky), base + "_hdr" + Tag(f))] + TransformPairs(sky, f)
  {
    HdrItems(sky, f);
    var base := "skybox/" + sky.name + "/" + sky.name;
    var last := [("basetexturetransform", Transform(sky, f))];
    KeptStr("basetexture", base + Tag(f));
    KeptStr(HdrKey(sky), base + "_hdr" + Tag(f));
    TransformKept(sky, f);
    Vmt.KeptPairsCons(HdrKey(sky), Vmt.Str(base + "_hdr" + Tag(f)), last);
    Vmt.KeptPairsCons("basetexture", Vmt.Str(base + Tag(f)), [(HdrKey(sky), Vmt.Str(base + "_hdr" + Tag(f)))] + last);
  }

  /** No quote in the HDR material's keys and values. */
  lemma HdrQuoteFree(sky: Sky, f: Face)
    requires PlainName(sky.name)
    ensures Vmt.QuoteFreeItems(HdrMaterial(sky, f).params.items)
  {
    HdrItems(sky, f);
    var items := HdrMaterial(sky, f).params.items;
    var base := "skybox/" + sky.name + "/" + sky.name;
    TextureNameNoQuote(sky, "", f);
    assert base + "" + Tag(f) == base + Tag(f);
    TextureNameNoQuote(sky, "_hdr", f);
    StrNoQuote(base + Tag(f));
    StrNoQuote(base + "_hdr" + Tag(f));
    TransformNoQuote(sky, f);
    assert '"' !in HdrKey(sky);
    forall i | 0 <= i < |items|
      ensures '"' !in items[i].0 && '"' !in Vmt.RenderValue(items[i].1)
    {
      if i == 0 {
        assert items[i] == ("basetexture", Vmt.Str(base + Tag(f)));
      } else if i == 1 {
        assert items[i] == (HdrKey(sky), Vmt.Str(base + "_hdr" + Tag(f)));
      } else {
        assert items[i] == ("basetexturetransform", Transform(sky, f));
      }
    }
  }

  /**
   * The HDR material, as read from its text: shader `sky`, the base texture, the HDR
   * texture `<base>_hdr<face>` under `hdrcompressedtexture` or `hdrbasetexture`, and the
   * transform on cut faces.
   */
  lemma HdrMaterialText(sky: Sky, f: Face)
    requires PlainName(sky.name)
    ensures Vmt.ToVmt(HdrMaterial(sky, f)).Success?
    ensures var base := "skybox/" + sky.name + "/" + sky.name;
      Vmt.ReadVmt(Vmt.ToVmt(HdrMaterial(sky, f)).value) == Some(Vmt.Doc("sky",
        [("basetexture", base + Tag(f)), (HdrKey(sky), base + "_hdr" + Tag(f))] + TransformPairs(sky, f)))
  {
    HdrPairs(sky, f);
    HdrQuoteFree(sky, f);
    Vmt.ReadToVmt(HdrMaterial(sky, f));
  }
}
