/**
 * Running one job: embedding a second image into the alpha channel, converting inputs
 * VTFCmd cannot read, choosing the file VTFCmd is fed, moving its output to the
 * destination and deleting the temporary files. ImageMagick and VTFCmd are oracles.
 */
module Export {
  import opened Wrappers
  import opened Paths
  import opened Tables
  import opened Jobs
  import opened VtfCmd
  import Decimal
  import Text

  /**
   * What the outside world answers. `files`: the files that exist before the job runs.
   * `dims`: the width and height ImageMagick reports for an image.
   * `produces`: whether a tool run with this argument list leaves its target file in place.
   */
  datatype World = World(files: set<Path>, dims: Path -> (nat, nat), produces: seq<string> -> bool)

  datatype ExportError =
    | MissingEmbedImage   // embedding is on but no image is chosen to embed
    | ResizedAlphaLost    // the resized alpha copy is missing, and `False.unlink()` raises
    | DestHasNoName       // `with_suffix` raises on a destination without a name

  // ---------------------------------------------------------------------------
  // ImageMagick calls
  // ---------------------------------------------------------------------------

  /** The forced exact size argument, `<W>x<H>!`. */
  function Geometry(dims: (nat, nat)): string
  {
    Decimal.NatToString(dims.0) + "x" + Decimal.NatToString(dims.1) + "!"
  }

  /** Reads a `<W>x<H>!` argument back. */
  function ParseGeometry(s: string): Option<(nat, nat)>
  {
    if |s| == 0 || s[|s| - 1] != '!' then None
    else
      var fields := Text.Split(s[..|s| - 1], 'x');
      if |fields| != 2 then None
      else if (forall i :: 0 <= i < |fields[0]| ==> Decimal.IsDigit(fields[0][i]))
           && (forall i :: 0 <= i < |fields[1]| ==> Decimal.IsDigit(fields[1][i]))
      then Some((Decimal.ParseDigits(fields[0]), Decimal.ParseDigits(fields[1])))
      else None
  }

  /** The resize argument asks for exactly the size it was built from. */
  lemma GeometryRoundTrip(dims: (nat, nat))
    ensures ParseGeometry(Geometry(dims)) == Some(dims)
  {
    var w := Decimal.NatToString(dims.0);
    var h := Decimal.NatToString(dims.1);
    var s := Geometry(dims);
    assert s[..|s| - 1] == w + "x" + h;
    assert w + "x" + h == Text.Join([w, h], 'x');
    assert 'x' !in w && 'x' !in h by {
      assert forall i :: 0 <= i < |w| ==> Decimal.IsDigit(w[i]);
      assert forall i :: 0 <= i < |h| ==> Decimal.IsDigit(h[i]);
    }
    Text.SplitJoin([w, h], 'x');
    Decimal.ParseNatToString(dims.0);
    Decimal.ParseNatToString(dims.1);
  }

  function ResizeTarget(root: Path, src: Path): Path { Join(TmpFolder(root), Stem(Name(src)) + ".tga") }
  function CompositeTarget(root: Path, rgb: Path): Path { Join(TmpFolder(root), Stem(Name(rgb)) + ".wa.tga") }
  function TgaTarget(root: Path, src: Path): Path { Join(TmpFolder(root), Stem(Name(src)) + ".tga") }

  function ResizeArgv(root: Path, src: Path, dims: (nat, nat)): seq<string>
  {
    [ToString(MagickExe(root)), ToString(src), "-resize", Geometry(dims), ToString(ResizeTarget(root, src))]
  }

  /** Use the second image's intensity as the first image's alpha channel. */
  const CopyOpacity: seq<string> := ["-alpha", "off", "-compose", "CopyOpacity", "-composite"]

  function CompositeArgv(root: Path, rgb: Path, alpha: Path): seq<string>
  {
    [ToString(MagickExe(root)), ToString(rgb), ToString(alpha)] + CopyOpacity + [ToString(CompositeTarget(root, rgb))]
  }

  function TgaArgv(root: Path, src: Path): seq<string>
  {
    [ToString(MagickExe(root)), ToString(src), ToString(TgaTarget(root, src))]
  }

  // ---------------------------------------------------------------------------
  // Alpha embedding
  // ---------------------------------------------------------------------------

  /** What embedding the alpha image did, when it did not raise. */
  datatype AlphaEmbed = AlphaEmbed(
    /** The size the alpha image was forced to, when it differed from the colour image's. */
    resizedTo: Option<(nat, nat)>,
    /** The alpha image the composite reads: the resized copy or the original. */
    alphaSource: Path,
    /** The resized copy, deleted once the composite has run. */
    deleted: Option<Path>,
    /** The composite image, when ImageMagick left it and the cleanup did not delete it. */
    result: Option<Path>)

  function CompositeResult(root: Path, rgb: Path, alphaSource: Path, w: World): Option<Path>
  {
    if w.produces(CompositeArgv(root, rgb, alphaSource)) then Some(CompositeTarget(root, rgb)) else None
  }

  function EmbedAlpha(rgb: Path, alpha: Path, root: Path, w: World): (r: Result<AlphaEmbed, ExportError>)
    // raises exactly when a resize was needed and left no file
    ensures r.Failure? <==> w.dims(rgb) != w.dims(alpha) && !w.produces(ResizeArgv(root, alpha, w.dims(rgb)))
  {
    var rgbDims := w.dims(rgb);
    if rgbDims == w.dims(alpha) then
      Success(AlphaEmbed(None, alpha, None, CompositeResult(root, rgb, alpha, w)))
    else if w.produces(ResizeArgv(root, alpha, rgbDims)) then
      var resized := ResizeTarget(root, alpha);
      // when the two temporary names coincide, the cleanup of the resized copy deletes the
      // composite, and the function returns False
      var result := if resized == CompositeTarget(root, rgb) then None else CompositeResult(root, rgb, resized, w);
      Success(AlphaEmbed(Some(rgbDims), resized, Some(resized), result))
    else
      // `resized_alpha` is False here: the composite still runs on the original alpha image,
      // then `resized_alpha.unlink()` raises
      Failure(ResizedAlphaLost)
  }

  /**
   * The alpha image is resized only when its size differs from the colour image's, and then
   * to exactly that size; the composite call reads the resized copy when there is one, and
   * that copy is deleted afterwards.
   */
  lemma EmbedAlphaSpec(rgb: Path, alpha: Path, root: Path, w: World)
    ensures EmbedAlpha(rgb, alpha, root, w).Success? ==>
      var e := EmbedAlpha(rgb, alpha, root, w).value;
      && (e.resizedTo.Some? <==> w.dims(rgb) != w.dims(alpha))
      && (e.resizedTo.Some? ==> ParseGeometry(ResizeArgv(root, alpha, w.dims(rgb))[3]) == e.resizedTo)
      && CompositeArgv(root, rgb, e.alphaSource)[2] ==
         ToString(if w.dims(rgb) != w.dims(alpha) then ResizeTarget(root, alpha) else alpha)
      && (e.deleted.Some? <==> e.resizedTo.Some?)
      && (e.deleted.Some? ==> e.deleted.value == e.alphaSource)
  {
    var r := EmbedAlpha(rgb, alpha, root, w);
    if r.Success? {
      var src := if w.dims(rgb) != w.dims(alpha) then ResizeTarget(root, alpha) else alpha;
      assert r.value.alphaSource == src;
      CompositeArgvAlpha(root, rgb, src);
      GeometryRoundTrip(w.dims(rgb));
    }
  }

  /** The composite call's third argument is the alpha image it reads. */
  lemma CompositeArgvAlpha(root: Path, rgb: Path, a: Path)
    ensures CompositeArgv(root, rgb, a)[2] == ToString(a)
  {
    var head := [ToString(MagickExe(root)), ToString(rgb), ToString(a)];
    assert CompositeArgv(root, rgb, a) == head + (CopyOpacity + [ToString(CompositeTarget(root, rgb))]);
  }

  /**
   * The composite is returned exactly when ImageMagick left it and the cleanup did not delete
   * it; a returned composite is the `<rgb stem>.wa.tga` target, and survives the cleanup.
   */
  lemma EmbedAlphaResult(rgb: Path, alpha: Path, root: Path, w: World)
    ensures EmbedAlpha(rgb, alpha, root, w).Success? ==>
      var e := EmbedAlpha(rgb, alpha, root, w).value;
      && (e.result.Some? <==>
            w.produces(CompositeArgv(root, rgb, e.alphaSource)) && e.deleted != Some(CompositeTarget(root, rgb)))
      && (e.result.Some? ==> e.result.value == CompositeTarget(root, rgb) && e.deleted != e.result)
  {
    var r := EmbedAlpha(rgb, alpha, root, w);
    var target := CompositeTarget(root, rgb);
    if r.Success? {
      var e := r.value;
      var made := w.produces(CompositeArgv(root, rgb, e.alphaSource));
      if w.dims(rgb) == w.dims(alpha) {
        assert e.deleted == None;
        assert e.result == if made then Some(target) else None;
      } else {
        var resized := ResizeTarget(root, alpha);
        assert e.deleted == Some(resized) && e.alphaSource == resized;
        if resized == target {
          assert e.result == None;
        } else {
          assert e.deleted != Some(target);
          assert e.result == if made then Some(target) else None;
        }
      }
    }
  }

  /**
   * The resized alpha copy and the composite share a temporary file exactly when the alpha
   * image's stem is the colour image's stem followed by `.wa`.
   */
  lemma TempNamesCollide(root: Path, rgb: Path, alpha: Path)
    ensures ResizeTarget(root, alpha) == CompositeTarget(root, rgb) <==> Stem(Name(alpha)) == Stem(Name(rgb)) + ".wa"
  {
    var a := Stem(Name(alpha));
    var c := Stem(Name(rgb));
    assert c + ".wa.tga" == (c + ".wa") + ".tga";
    if ResizeTarget(root, alpha) == CompositeTarget(root, rgb) {
      TmpNaming(root, alpha, ".tga");
      TmpNaming(root, rgb, ".wa.tga");
      CancelSuffix(a, c + ".wa", ".tga");
    }
  }

  lemma CancelSuffix(x: string, y: string, t: string)
    requires x + t == y + t
    ensures x == y
  {
    assert |x| == |y|;
    assert x == (x + t)[..|x|];
    assert y == (y + t)[..|y|];
  }

  /** For instance `/x/a.png` with the alpha image `/x/a.wa.png`. */
  lemma TempNamesCollideExample()
    ensures Stem(Name(PurePath(true, ["x", "a.wa.png"]))) == Stem(Name(PurePath(true, ["x", "a.png"]))) + ".wa"
  {
    var n1, n2 := "a.wa.png", "a.png";
    assert n1[4] == '.' && n1[5] == 'p' && n1[6] == 'n' && n1[7] == 'g';
    assert Text.RFind(n1, '.') == 4;
    assert n1[..4] == "a.wa";
    assert n2[1] == '.' && n2[2] == 'p' && n2[3] == 'n' && n2[4] == 'g';
    assert Text.RFind(n2, '.') == 1;
    assert n2[..1] == "a";
  }

  /**
   * With colliding temporary names and a resize that worked, the composite is always lost:
   * the cleanup deletes it, and VTFCmd reads the original colour image.
   */
  lemma CollisionLosesComposite(job: Job, root: Path, w: World)
    requires AlphaPath(job) in w.files
    requires Stem(Name(AlphaPath(job))) == Stem(Name(job.src)) + ".wa"
    requires w.dims(job.src) != w.dims(AlphaPath(job))
    ensures EmbedAlpha(job.src, AlphaPath(job), root, w).Success? ==>
      EmbedAlpha(job.src, AlphaPath(job), root, w).value.result.None?
    ensures Prepare(job, root, w).Success? ==>
      Prepare(job, root, w).value.input == job.src && Prepare(job, root, w).value.tgaArgs.None?
  {
    TempNamesCollide(root, job.src, AlphaPath(job));
    PrepareSpec(job, root, w);
  }

  /** The composite, when ImageMagick leaves it, is `<rgb stem>.wa.tga` in the temporary folder. */
  lemma CompositeResultNaming(root: Path, rgb: Path, alphaSource: Path, w: World)
    ensures var r := CompositeResult(root, rgb, alphaSource, w);
      && (r.Some? <==> w.produces(CompositeArgv(root, rgb, alphaSource)))
      && (r.Some? ==> Parent(r.value) == TmpFolder(root) && Name(r.value) == Stem(Name(rgb)) + ".wa.tga")
  {
    TmpNaming(root, rgb, ".wa.tga");
  }

  /** The resize asks for exactly the given size. */
  lemma ResizeArgvGeometry(root: Path, src: Path, dims: (nat, nat))
    ensures ParseGeometry(ResizeArgv(root, src, dims)[3]) == Some(dims)
  {
    GeometryRoundTrip(dims);
  }

  /** A temporary file `<stem><ext>` lands directly in the temporary folder under that name. */
  lemma TmpNaming(root: Path, src: Path, ext: string)
    requires |ext| >= 2 && ext[0] == '.' && Sep !in ext
    ensures Parent(Join(TmpFolder(root), Stem(Name(src)) + ext)) == TmpFolder(root)
    ensures Name(Join(TmpFolder(root), Stem(Name(src)) + ext)) == Stem(Name(src)) + ext
  {
    var s := Stem(Name(src));
    assert s + Suffix(Name(src)) == Name(src);
    assert forall k :: 0 <= k < |s| ==> s[k] == Name(src)[k];
    assert Sep !in s + ext by {
      forall k | 0 <= k < |s + ext|
        ensures (s + ext)[k] != Sep
      {
        if k < |s| {
          assert (s + ext)[k] == Name(src)[k];
        } else {
          assert (s + ext)[k] == ext[k - |s|];
        }
      }
    }
    JoinName(TmpFolder(root), s + ext);
  }

  // ---------------------------------------------------------------------------
  // One job
  // ---------------------------------------------------------------------------

  /** `Path(str(img_info['emb_alpha']))`: a job without an alpha image names the file `False`. */
  function AlphaPath(job: Job): Path
  {
    match job.embedAlpha
    case None => FalsePath
    case Some(p) => p
  }

  /** The relative path `False`. */
  const FalsePath: Path := PurePath(false, ["False"])

  lemma FalsePathParses()
    ensures Parse("False") == FalsePath && ToString(FalsePath) == "False"
  {
    assert Text.Split("False", Sep) == ["False"] by {
      Text.SplitNoSep("False", Sep);
    }
  }

  datatype Run = Run(
    prepared: Prepared,
    /** VTFCmd's argument list. */
    args: seq<string>,
    /** Where VTFCmd writes, and where that file is moved. */
    encoderOutput: Path,
    dest: Path,
    /** Whether VTFCmd's output was there to move; the move raises otherwise. */
    moved: bool,
    /** The temporary files deleted after the move. */
    removed: seq<Path>)

  function Temps(p: Option<Path>): seq<Path>
  {
    match p
    case None => []
    case Some(x) => [x]
  }

  /** What happens before VTFCmd runs: the alpha embedding, the TGA conversion, the input choice. */
  datatype Prepared = Prepared(
    /** Present exactly when embedding was attempted. */
    embed: Option<AlphaEmbed>,
    /** The TGA conversion, when it ran, and the file it left. */
    tgaArgs: Option<seq<string>>,
    converted: Option<Path>,
    /** The file VTFCmd reads. */
    input: Path)

  /** The composite image, when embedding was attempted and ImageMagick left one. */
  function Composite(p: Prepared): Option<Path>
  {
    if p.embed.Some? then p.embed.value.result else None
  }

  function Prepare(job: Job, root: Path, w: World): Result<Prepared, ExportError>
  {
    var attempted := AlphaPath(job) in w.files;
    var embed := if attempted then Some(EmbedAlpha(job.src, AlphaPath(job), root, w)) else None;
    if embed.Some? && embed.value.Failure? then Failure(embed.value.error)
    else
      var e := if embed.Some? then Some(embed.value.value) else None;
      // the conversion is skipped whenever embedding was attempted, even if it left nothing
      var needsTga := !Supported(Suffix(Name(job.src))) && !attempted;
      var p := Prepared(
        e,
        if needsTga then Some(TgaArgv(root, job.src)) else None,
        if needsTga && w.produces(TgaArgv(root, job.src)) then Some(TgaTarget(root, job.src)) else None,
        job.src);
      // `img_src_w_alpha or img_src or img_src_converted`: a Path is always truthy
      Success(p.(input := Composite(p).GetOr(job.src)))
  }

  /**
   * Embedding is attempted iff the alpha path names an existing file; TGA conversion runs iff
   * the suffix is unsupported and no embedding was attempted; VTFCmd reads the composite when
   * there is one and the original otherwise, so never the converted TGA.
   */
  lemma PrepareSpec(job: Job, root: Path, w: World)
    ensures Prepare(job, root, w).Failure? <==>
      AlphaPath(job) in w.files && EmbedAlpha(job.src, AlphaPath(job), root, w).Failure?
    ensures Prepare(job, root, w).Success? ==>
      var p := Prepare(job, root, w).value;
      && (p.embed.Some? <==> AlphaPath(job) in w.files)
      && (p.tgaArgs.Some? <==> !Supported(Suffix(Name(job.src))) && p.embed.None?)
      && (p.converted.Some? ==> p.tgaArgs.Some? && Name(p.converted.value) == Stem(Name(job.src)) + ".tga")
      && (Composite(p).Some? ==> p.input == Composite(p).value)
      && (Composite(p).None? ==> p.input == job.src)
      && (p.converted.Some? ==> p.input == job.src)
  {
    TmpNaming(root, job.src, ".tga");
  }

  /** VTFCmd's run, the move of its output and the cleanup. */
  function Encode(job: Job, shared: Shared, root: Path, w: World, p: Prepared): Run
    requires Name(job.dest) != ""
  {
    var args := BuildArgs(job, shared, p.input, root);
    var moved := w.produces(args);
    Run(p, args,
        Join(Parent(job.dest), Stem(Name(p.input)) + ".vtf"),
        WithSuffix(job.dest, ".vtf"),
        moved,
        if moved then Temps(Composite(p)) + Temps(p.converted) else [])
  }

  /**
   * VTFCmd reads the chosen input and writes into the destination's folder, as
   * `<input stem>.vtf`; that file is moved to the destination with suffix `.vtf`; the
   * temporary files are deleted only when the move succeeds.
   */
  lemma EncodeSpec(job: Job, shared: Shared, root: Path, w: World, p: Prepared)
    requires Name(job.dest) != ""
    ensures var r := Encode(job, shared, root, w, p);
      && ParseArgs(r.args).Some? && ParseArgs(r.args).value.input == ToString(p.input)
      && ParseArgs(r.args).value.output == ToString(Parent(job.dest))
      && Parent(r.encoderOutput) == Parent(job.dest)
      && Name(r.encoderOutput) == Stem(Name(p.input)) + ".vtf"
      && Parent(r.dest) == Parent(job.dest)
      && Suffix(Name(r.dest)) == ".vtf" && Stem(Name(r.dest)) == Stem(Name(job.dest))
      && (r.moved ==> r.removed == Temps(Composite(p)) + Temps(p.converted))
      && (!r.moved ==> r.removed == [])
  {
    BuildArgsDecodes(job, shared, p.input, root);
    StemIsPart(Name(p.input));
    JoinName(Parent(job.dest), Stem(Name(p.input)) + ".vtf");
    WithSuffixVtf(job.dest);
  }

  function ExportImage(job: Job, shared: Shared, root: Path, w: World): Result<Run, ExportError>
  {
    match Prepare(job, root, w)
    case Failure(e) => Failure(e)
    case Success(p) =>
      // `with_suffix` raises only after VTFCmd has run; nothing is moved or deleted then
      if Name(job.dest) == "" then Failure(DestHasNoName)
      else Success(Encode(job, shared, root, w, p))
  }

  /** A job fails exactly when the embedding raised or the destination has no name. */
  lemma ExportImageFails(job: Job, shared: Shared, root: Path, w: World)
    ensures ExportImage(job, shared, root, w).Failure? <==>
      || (AlphaPath(job) in w.files && EmbedAlpha(job.src, AlphaPath(job), root, w).Failure?)
      || Name(job.dest) == ""
  {
    PrepareSpec(job, root, w);
  }

  /**
   * A job completes exactly when nothing raised before the move and VTFCmd left its output
   * to move; a run whose `moved` is false stands for the raise of `shutil.move`.
   */
  lemma ExportImageCompletes(job: Job, shared: Shared, root: Path, w: World)
    ensures Completed(ExportImage(job, shared, root, w)) <==>
      && Prepare(job, root, w).Success?
      && Name(job.dest) != ""
      && w.produces(BuildArgs(job, shared, Prepare(job, root, w).value.input, root))
    ensures ExportImage(job, shared, root, w).Success? && !Completed(ExportImage(job, shared, root, w)) ==>
      ExportImage(job, shared, root, w).value.removed == []
  {
  }

  /** A batch job embeds nothing unless a file called `False` exists in the working directory. */
  lemma BatchAlphaQuirk(shared: Shared, batch: BatchSettings, src: Path, root: Path, w: World)
    requires FalsePath !in w.files
    ensures var r := ExportImage(BatchJob(shared, batch, src), shared, root, w);
      r.Success? ==> r.value.prepared.embed.None?
  {
    PrepareSpec(BatchJob(shared, batch, src), root, w);
  }

  /** The per-image export: build the job, then run it. */
  function ExportDatablock(img: ImageSettings, shared: Shared, src: Path, root: Path, w: World): Result<Run, ExportError>
  {
    match ImageJob(img, shared, src)
    case Failure(_) => Failure(MissingEmbedImage)
    case Success(job) => ExportImage(job, shared, root, w)
  }

  /**
   * The per-image export fails with `MissingEmbedImage` exactly when embedding is on and no
   * image is chosen; otherwise it is the export of the image's job.
   */
  lemma ExportDatablockSpec(img: ImageSettings, shared: Shared, src: Path, root: Path, w: World)
    ensures ExportDatablock(img, shared, src, root, w) == Failure(MissingEmbedImage) <==>
      img.embedToAlpha && img.imageToEmbed.None?
    ensures !(img.embedToAlpha && img.imageToEmbed.None?) ==>
      ExportDatablock(img, shared, src, root, w) == ExportImage(ImageJob(img, shared, src).value, shared, root, w)
  {
    ImageJobLayers(img, shared, src);
    match ImageJob(img, shared, src)
    case Failure(_) =>
    case Success(job) => ExportImageNeverMissing(job, shared, root, w);
  }

  /** Running a job never reports a missing embed image: that error belongs to building the job. */
  lemma ExportImageNeverMissing(job: Job, shared: Shared, root: Path, w: World)
    ensures ExportImage(job, shared, root, w) != Failure(MissingEmbedImage)
  {
    if AlphaPath(job) in w.files {
      assert EmbedAlpha(job.src, AlphaPath(job), root, w) != Failure(MissingEmbedImage);
    }
  }

  // ---------------------------------------------------------------------------
  // Batches
  // ---------------------------------------------------------------------------

  /** A job that ran to the end: nothing raised and VTFCmd's output was moved. */
  predicate Completed(r: Result<Run, ExportError>)
  {
    r.Success? && r.value.moved
  }

  /**
   * The batch loop: runs the jobs in order. Anything raised inside one job escapes the loop,
   * so the batch stops right after the first job that did not complete.
   */
  method RunUntilFailure<J, R(==)>(jobs: seq<J>, run: J -> R, ok: R -> bool) returns (runs: seq<R>)
    ensures |runs| <= |jobs|
    ensures forall i :: 0 <= i < |runs| ==> runs[i] == run(jobs[i])
    ensures forall i :: 0 <= i < |runs| - 1 ==> ok(runs[i])
    ensures |runs| < |jobs| ==> |runs| > 0 && !ok(runs[|runs| - 1])
  {
    runs := [];
    var i := 0;
    while i < |jobs|
      invariant 0 <= i <= |jobs| && |runs| == i
      invariant forall k :: 0 <= k < i ==> runs[k] == run(jobs[k]) && ok(runs[k])
    {
      var r := run(jobs[i]);
      runs := runs + [r];
      if !ok(r) {
        return;
      }
      i := i + 1;
    }
  }

  /** The per-job step of a batch, as a function value. */
  function Exporter(shared: Shared, root: Path, w: World): Job -> Result<Run, ExportError>
  {
    j => ExportImage(j, shared, root, w)
  }

  lemma ExporterRuns(jobs: seq<Job>, runs: seq<Result<Run, ExportError>>, shared: Shared, root: Path, w: World)
    requires |runs| <= |jobs|
    requires forall i :: 0 <= i < |runs| ==> runs[i] == Exporter(shared, root, w)(jobs[i])
    ensures forall i :: 0 <= i < |runs| ==> runs[i] == ExportImage(jobs[i], shared, root, w)
  {
  }

  method RunBatch(jobs: seq<Job>, shared: Shared, root: Path, w: World) returns (runs: seq<Result<Run, ExportError>>)
    ensures |runs| <= |jobs|
    ensures forall i :: 0 <= i < |runs| ==> runs[i] == ExportImage(jobs[i], shared, root, w)
    ensures forall i :: 0 <= i < |runs| - 1 ==> Completed(runs[i])
    ensures |runs| < |jobs| ==> |runs| > 0 && !Completed(runs[|runs| - 1])
  {
    runs := RunUntilFailure(jobs, Exporter(shared, root, w), Completed);
    ExporterRuns(jobs, runs, shared, root, w);
  }

  /**
   * The batch operator: split the input path into folder and pattern, let `glob` list the
   * matches, and run one batch job per match.
   */
  method BatchConvert(shared: Shared, batch: BatchSettings, glob: (Path, string) -> seq<Path>, root: Path, w: World)
    returns (matches: seq<Path>, runs: seq<Result<Run, ExportError>>)
    ensures matches == glob(SplitWildcard(batch.input).folder, SplitWildcard(batch.input).pattern)
    ensures |runs| <= |matches|
    ensures forall i :: 0 <= i < |runs| ==>
      runs[i] == ExportImage(BatchJob(shared, batch, matches[i]), shared, root, w)
    ensures forall i :: 0 <= i < |runs| - 1 ==> Completed(runs[i])
    ensures |runs| < |matches| ==> |runs| > 0 && !Completed(runs[|runs| - 1])
  {
    var loc := SplitWildcard(batch.input);
    matches := glob(loc.folder, loc.pattern);
    runs := RunBatch(BatchJobs(shared, batch, matches), shared, root, w);
  }
}
