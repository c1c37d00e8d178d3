/** The add-on's constant tables: encoder formats, VTF versions, flags, sizes, filters. */
module Tables {
  import Text
  import opened Wrappers

  /** The twenty texture flags, one constructor per `vtf_flag_*` property. */
  datatype Flag =
    | PointSample | Trilinear | ClampS | ClampT | Anisotropic | HintDxt5 | Normal | NoMip
    | NoLod | MinMip | Procedural | RenderTarget | DepthRenderTarget | NoDebugOverride
    | SingleCopy | NoDepthBuffer | ClampU | VertexTexture | SsBump | Border

  /** The name VTFCmd expects after `-flag`. */
  function FlagName(f: Flag): string
  {
    match f
    case PointSample => "POINTSAMPLE"
    case Trilinear => "TRILINEAR"
    case ClampS => "CLAMPS"
    case ClampT => "CLAMPT"
    case Anisotropic => "ANISOTROPIC"
    case HintDxt5 => "HINT_DXT5"
    case Normal => "NORMAL"
    case NoMip => "NOMIP"
    case NoLod => "NOLOD"
    case MinMip => "MINMIP"
    case Procedural => "PROCEDURAL"
    case RenderTarget => "RENDERTARGET"
    case DepthRenderTarget => "DEPTHRENDERTARGET"
    case NoDebugOverride => "NODEBUGOVERRIDE"
    case SingleCopy => "SINGLECOPY"
    case NoDepthBuffer => "NODEPTHBUFFER"
    case ClampU => "CLAMPU"
    case VertexTexture => "VERTEXTEXTURE"
    case SsBump => "SSBUMP"
    case Border => "BORDER"
  }

  const FlagPrefix: string := "vtf_flag_"

  /** The name of the boolean property that holds the flag. */
  function FlagProp(f: Flag): string
  {
    FlagPrefix + FlagName(f)
  }

  /** The order in which the flag properties are declared and walked. */
  const FlagOrder: seq<Flag> := [
    PointSample, Trilinear, ClampS, ClampT, Anisotropic, HintDxt5, Normal, NoMip,
    NoLod, MinMip, Procedural, RenderTarget, DepthRenderTarget, NoDebugOverride,
    SingleCopy, NoDepthBuffer, ClampU, VertexTexture, SsBump, Border
  ]

  /** `flg.replace('vtf_flag_', '')`. */
  function StripFlagPrefix(prop: string): string
  {
    Text.RemoveAll(prop, FlagPrefix)
  }

  /** Stripping the prefix from a flag's property name yields exactly the VTFCmd flag name. */
  lemma StripFlagProp(f: Flag)
    ensures StripFlagPrefix(FlagProp(f)) == FlagName(f)
  {
    assert 'v' !in FlagName(f);
    Text.RemoveAllPrefix(FlagPrefix, FlagName(f));
  }

  /** The position of a flag in the declaration order. */
  function Rank(f: Flag): (r: nat)
    ensures r < |FlagOrder| && FlagOrder[r] == f
  {
    match f
    case PointSample => 0
    case Trilinear => 1
    case ClampS => 2
    case ClampT => 3
    case Anisotropic => 4
    case HintDxt5 => 5
    case Normal => 6
    case NoMip => 7
    case NoLod => 8
    case MinMip => 9
    case Procedural => 10
    case RenderTarget => 11
    case DepthRenderTarget => 12
    case NoDebugOverride => 13
    case SingleCopy => 14
    case NoDepthBuffer => 15
    case ClampU => 16
    case VertexTexture => 17
    case SsBump => 18
    case Border => 19
  }

  /** Reads a VTFCmd flag name back; names outside the table are not flags. */
  function FlagByName(name: string): (r: Option<Flag>)
    ensures r.Some? ==> FlagName(r.value) == name
  {
    if name == "POINTSAMPLE" then Some(PointSample)
    else if name == "TRILINEAR" then Some(Trilinear)
    else if name == "CLAMPS" then Some(ClampS)
    else if name == "CLAMPT" then Some(ClampT)
    else if name == "ANISOTROPIC" then Some(Anisotropic)
    else if name == "HINT_DXT5" then Some(HintDxt5)
    else if name == "NORMAL" then Some(Normal)
    else if name == "NOMIP" then Some(NoMip)
    else if name == "NOLOD" then Some(NoLod)
    else if name == "MINMIP" then Some(MinMip)
    else if name == "PROCEDURAL" then Some(Procedural)
    else if name == "RENDERTARGET" then Some(RenderTarget)
    else if name == "DEPTHRENDERTARGET" then Some(DepthRenderTarget)
    else if name == "NODEBUGOVERRIDE" then Some(NoDebugOverride)
    else if name == "SINGLECOPY" then Some(SingleCopy)
    else if name == "NODEPTHBUFFER" then Some(NoDepthBuffer)
    else if name == "CLAMPU" then Some(ClampU)
    else if name == "VERTEXTEXTURE" then Some(VertexTexture)
    else if name == "SSBUMP" then Some(SsBump)
    else if name == "BORDER" then Some(Border)
    else None
  }

  /** Every flag name reads back as its flag. */
  lemma FlagByNameInverse(f: Flag)
    ensures FlagByName(FlagName(f)) == Some(f)
  {
  }

  /** Every flag is walked exactly once. */
  lemma FlagOrderIsComplete()
    ensures |FlagOrder| == 20
    ensures forall f: Flag :: f in FlagOrder
    ensures forall i, j :: 0 <= i < j < |FlagOrder| ==> FlagOrder[i] != FlagOrder[j]
  {
    forall f: Flag ensures f in FlagOrder {
      match f
      case PointSample => assert FlagOrder[0] == f;
      case Trilinear => assert FlagOrder[1] == f;
      case ClampS => assert FlagOrder[2] == f;
      case ClampT => assert FlagOrder[3] == f;
      case Anisotropic => assert FlagOrder[4] == f;
      case HintDxt5 => assert FlagOrder[5] == f;
      case Normal => assert FlagOrder[6] == f;
      case NoMip => assert FlagOrder[7] == f;
      case NoLod => assert FlagOrder[8] == f;
      case MinMip => assert FlagOrder[9] == f;
      case Procedural => assert FlagOrder[10] == f;
      case RenderTarget => assert FlagOrder[11] == f;
      case DepthRenderTarget => assert FlagOrder[12] == f;
      case NoDebugOverride => assert FlagOrder[13] == f;
      case SingleCopy => assert FlagOrder[14] == f;
      case NoDepthBuffer => assert FlagOrder[15] == f;
      case ClampU => assert FlagOrder[16] == f;
      case VertexTexture => assert FlagOrder[17] == f;
      case SsBump => assert FlagOrder[18] == f;
      case Border => assert FlagOrder[19] == f;
    }
  }

  /** Encoder formats offered in the format menus (the menu separators are left out). */
  const Formats: seq<string> := [
    "DXT1", "DXT3", "DXT5", "BGR888", "BGR565", "BGRA8888", "BGRA4444",
    "I8", "IA88", "A8",
    "DXT1_ONEBITALPHA", "RGB888", "RGB565", "RGBA8888", "ABGR8888", "RGB888_BLUESCREEN",
    "BGR888_BLUESCREEN", "ARGB8888", "BGRX8888", "BGRX5551", "BGRA5551", "UV88", "UVWQ8888",
    "RGBA16161616F", "RGBA16161616", "UVLX8888"
  ]

  const VtfVersions: seq<string> := ["7.5", "7.4", "7.3", "7.2", "7.1"]

  const ResizeMethods: seq<string> := ["NEAREST", "BIGGEST", "SMALLEST"]

  const InterpFilters: seq<string> := [
    "POINT", "BOX", "TRIANGLE", "QUADRATIC", "CUBIC", "CATROM", "MITCHELL", "GAUSSIAN",
    "SINC", "BESSEL", "HANNING", "HAMMING", "BLACKMAN", "KAISER"
  ]

  const SharpenFilters: seq<string> := [
    "NONE", "NEGATIVE", "LIGHTER", "DARKER", "CONTRASTMORE", "CONTRASTLESS", "SMOOTHEN",
    "SHARPENSOFT", "SHARPENMEDIUM", "SHARPENSTRONG", "FINDEDGES", "CONTOUR", "EDGEDETECT",
    "EDGEDETECTSOFT", "EMBOSS", "MEANREMOVAL", "UNSHARP", "XSHARPEN", "WARPSHARP"
  ]

  /** Clamp sizes offered in the width and height menus, as the strings passed to VTFCmd. */
  const ClampSizes: seq<string> := [
    "4096", "2048", "1024", "512", "256", "128", "64", "32", "16", "8", "4", "2"
  ]

  /** File suffixes VTFCmd reads directly; `.gif` is not among them. */
  const SupportedExtensions: seq<string> := [".tga", ".jpeg", ".jpg", ".png", ".bmp", ".dds"]

  /** The suffix test is an exact, case-sensitive membership test. */
  predicate Supported(suffix: string)
  {
    suffix in SupportedExtensions
  }

  predicate IsPowerOfTwo(n: nat)
    decreases n
  {
    n == 1 || (n >= 2 && n % 2 == 0 && IsPowerOfTwo(n / 2))
  }
}
