/**
 * Building a conversion job from the three settings layers: the per-image settings,
 * the batch-folder settings and the shared settings. The enable switches come from the
 * local layer (image or batch); resize and mipmap filters always come from the shared one.
 */
module Jobs {
  import opened Wrappers
  import opened Paths
  import opened Tables

  /** Which VTFCmd build runs: the current one, or the old one that accepts sharpen filters. */
  datatype Encoder = New | Old

  /** The shared settings (one per scene). */
  datatype Shared = Shared(
    encoder: Encoder,
    vtfVersion: string,
    resizeFilter: string,
    resizeSharpen: string,
    mipmapFilter: string,
    mipmapSharpen: string,
    generateThumb: bool,
    /** `vtf_flag_*` ID properties stored on the shared group; it declares none, so normally empty. */
    idFlags: set<Flag>)

  /** The settings attached to one image. */
  datatype ImageSettings = ImageSettings(
    format: string,
    formatAlpha: string,
    mipmapsEnable: bool,
    exportPath: Path,
    namedExport: bool,
    newName: string,
    embedToAlpha: bool,
    /** Absolute file path of the image chosen for embedding; None when no image is chosen. */
    imageToEmbed: Option<Path>,
    enableResize: bool,
    resizeMethod: string,
    resizeClamp: bool,
    clampMaxWidth: string,
    clampMaxHeight: string,
    computeRefl: bool,
    /** The flag properties that read as True. */
    flags: set<Flag>)

  /** The batch-folder settings. */
  datatype BatchSettings = BatchSettings(
    input: Path,
    output: Path,
    format: string,
    formatAlpha: string,
    mipmapsEnable: bool,
    enableResize: bool,
    resizeMethod: string,
    resizeClamp: bool,
    clampMaxWidth: string,
    clampMaxHeight: string,
    computeRefl: bool,
    /** Declared on the batch group but never read by the batch operator. */
    flags: set<Flag>)

  datatype Resize = Resize(alignment: string, filter: string, sharpen: string)
  datatype Mips = Mips(filter: string, sharpen: string)
  datatype Clamp = Clamp(width: string, height: string)

  /** The job dictionary handed to the exporter; None stands for Python's `False`. */
  datatype Job = Job(
    format: string,
    formatAlpha: string,
    mips: Option<Mips>,
    computeRefl: bool,
    src: Path,
    dest: Path,
    embedAlpha: Option<Path>,
    resize: Option<Resize>,
    clamp: Option<Clamp>,
    flags: seq<string>)

  /** Reading the image that should be embedded fails when none is chosen. */
  datatype JobError = NoImageToEmbed

  // ---------------------------------------------------------------------------
  // Flags
  // ---------------------------------------------------------------------------

  /** Walks the flag properties in `order`, keeping the names of those set to True. */
  function Collect(order: seq<Flag>, enabled: set<Flag>): seq<string>
  {
    if |order| == 0 then []
    else
      (if order[0] in enabled then [StripFlagPrefix(FlagProp(order[0]))] else [])
      + Collect(order[1..], enabled)
  }

  /** The flag list of a job: enabled flags, in declaration order, prefix stripped. */
  function CollectFlags(enabled: set<Flag>): seq<string>
  {
    Collect(FlagOrder, enabled)
  }

  /** Every collected name is the name of an enabled flag of `order`. */
  lemma {:induction false} CollectSound(order: seq<Flag>, enabled: set<Flag>)
    ensures forall i :: 0 <= i < |Collect(order, enabled)| ==>
      var f := FlagByName(Collect(order, enabled)[i]);
      f.Some? && f.value in enabled && f.value in order
  {
    if |order| > 0 {
      var rest := Collect(order[1..], enabled);
      CollectSound(order[1..], enabled);
      var head := if order[0] in enabled then [FlagName(order[0])] else [];
      var r := Collect(order, enabled);
      StripFlagProp(order[0]);
      FlagByNameInverse(order[0]);
      assert r == head + rest;
      forall i | 0 <= i < |r|
        ensures var f := FlagByName(r[i]); f.Some? && f.value in enabled && f.value in order
      {
        if i < |head| {
          assert r[i] == FlagName(order[0]);
        } else {
          assert r[i] == rest[i - |head|];
          var g := FlagByName(rest[i - |head|]).value;
          assert g in order[1..];
          var k :| 0 <= k < |order[1..]| && order[1..][k] == g;
          assert order[k + 1] == g;
        }
      }
    }
  }

  /** Collected names follow the order of `order`. */
  lemma {:induction false} CollectOrdered(order: seq<Flag>, enabled: set<Flag>)
    requires forall i, j :: 0 <= i < j < |order| ==> Rank(order[i]) < Rank(order[j])
    ensures forall i :: 0 <= i < |Collect(order, enabled)| ==> FlagByName(Collect(order, enabled)[i]).Some?
    ensures forall i, j :: 0 <= i < j < |Collect(order, enabled)| ==>
      Rank(FlagByName(Collect(order, enabled)[i]).value) < Rank(FlagByName(Collect(order, enabled)[j]).value)
  {
    CollectSound(order, enabled);
    if |order| > 0 {
      var rest := Collect(order[1..], enabled);
      CollectSound(order[1..], enabled);
      CollectOrdered(order[1..], enabled);
      forall i | 0 <= i < |rest|
        ensures Rank(order[0]) < Rank(FlagByName(rest[i]).value)
      {
        var g := FlagByName(rest[i]).value;
        var k :| 0 <= k < |order[1..]| && order[1..][k] == g;
        assert order[k + 1] == g;
      }
      if order[0] in enabled {
        StripFlagProp(order[0]);
        FlagByNameInverse(order[0]);
        assert Collect(order, enabled) == [FlagName(order[0])] + rest;
      }
    }
  }

  /** The name of every enabled flag of `order` is collected. */
  lemma {:induction false} CollectComplete(order: seq<Flag>, enabled: set<Flag>)
    ensures forall f :: f in order && f in enabled ==> FlagName(f) in Collect(order, enabled)
  {
    if |order| > 0 {
      var rest := Collect(order[1..], enabled);
      CollectComplete(order[1..], enabled);
      var r := Collect(order, enabled);
      if order[0] in enabled {
        StripFlagProp(order[0]);
        assert r == [FlagName(order[0])] + rest;
      } else {
        assert r == rest;
      }
      forall f | f in order && f in enabled ensures FlagName(f) in r {
        if f != order[0] {
          var k :| 0 <= k < |order| && order[k] == f;
          assert f in order[1..] by { assert order[1..][k - 1] == f; }
        }
      }
    }
  }

  lemma CollectSpec(order: seq<Flag>, enabled: set<Flag>)
    requires forall i, j :: 0 <= i < j < |order| ==> Rank(order[i]) < Rank(order[j])
    ensures forall i :: 0 <= i < |Collect(order, enabled)| ==>
      var f := FlagByName(Collect(order, enabled)[i]);
      f.Some? && f.value in enabled && f.value in order
    ensures forall i, j :: 0 <= i < j < |Collect(order, enabled)| ==>
      Rank(FlagByName(Collect(order, enabled)[i]).value) < Rank(FlagByName(Collect(order, enabled)[j]).value)
    ensures forall f :: f in order && f in enabled ==> FlagName(f) in Collect(order, enabled)
  {
    CollectSound(order, enabled);
    CollectOrdered(order, enabled);
    CollectComplete(order, enabled);
  }

  /**
   * The flag list holds exactly the names of the enabled flags, each once,
   * in declaration order, and nothing else.
   */
  lemma CollectFlagsSpec(enabled: set<Flag>)
    ensures forall f: Flag :: FlagName(f) in CollectFlags(enabled) <==> f in enabled
    ensures forall i :: 0 <= i < |CollectFlags(enabled)| ==>
      FlagByName(CollectFlags(enabled)[i]).Some?
    ensures forall i, j :: 0 <= i < j < |CollectFlags(enabled)| ==>
      Rank(FlagByName(CollectFlags(enabled)[i]).value) < Rank(FlagByName(CollectFlags(enabled)[j]).value)
  {
    FlagOrderIsComplete();
    assert forall i :: 0 <= i < |FlagOrder| ==> Rank(FlagOrder[i]) == i;
    CollectSpec(FlagOrder, enabled);
    var r := CollectFlags(enabled);
    forall f: Flag | FlagName(f) in r ensures f in enabled {
      var i :| 0 <= i < |r| && r[i] == FlagName(f);
      FlagByNameInverse(f);
    }
  }

  // ---------------------------------------------------------------------------
  // Destinations
  // ---------------------------------------------------------------------------

  lemma StemIsPart(name: string)
    requires Sep !in name
    ensures IsPart(Stem(name) + ".vtf")
  {
    var s := Stem(name);
    assert s + Suffix(name) == name;
    assert forall k :: 0 <= k < |s| ==> s[k] == name[k];
  }

  /** `<export dir>/<src stem>.vtf`, or `<new name>.vtf` beside it when renaming is on. */
  function ImageDest(img: ImageSettings, src: Path): Path
  {
    var byStem := Join(img.exportPath, Stem(Name(src)) + ".vtf");
    if img.namedExport then Join(Parent(byStem), img.newName + ".vtf") else byStem
  }

  lemma ImageDestNaming(img: ImageSettings, src: Path)
    ensures !img.namedExport ==>
      Parent(ImageDest(img, src)) == img.exportPath && Name(ImageDest(img, src)) == Stem(Name(src)) + ".vtf"
    ensures img.namedExport ==>
      ImageDest(img, src) == Join(img.exportPath, img.newName + ".vtf")
  {
    StemIsPart(Name(src));
    JoinName(img.exportPath, Stem(Name(src)) + ".vtf");
  }

  /** A batch job writes `<output>/<src stem>.vtf`. */
  function BatchDest(output: Path, src: Path): Path
  {
    Join(output, Stem(Name(src)) + ".vtf")
  }

  lemma BatchDestNaming(output: Path, src: Path)
    ensures Parent(BatchDest(output, src)) == output
    ensures Name(BatchDest(output, src)) == Stem(Name(src)) + ".vtf"
  {
    StemIsPart(Name(src));
    JoinName(output, Stem(Name(src)) + ".vtf");
  }

  // ---------------------------------------------------------------------------
  // Layering
  // ---------------------------------------------------------------------------

  /** The job for one image, from its own settings and the shared settings. */
  function ImageJob(img: ImageSettings, shared: Shared, src: Path): Result<Job, JobError>
  {
    if img.embedToAlpha && img.imageToEmbed.None? then Failure(NoImageToEmbed)
    else
      Success(Job(
        format := img.format,
        formatAlpha := img.formatAlpha,
        mips := if img.mipmapsEnable then Some(Mips(shared.mipmapFilter, shared.mipmapSharpen)) else None,
        computeRefl := img.computeRefl,
        src := src,
        dest := ImageDest(img, src),
        embedAlpha := if img.embedToAlpha then img.imageToEmbed else None,
        resize := if img.enableResize then Some(Resize(img.resizeMethod, shared.resizeFilter, shared.resizeSharpen)) else None,
        clamp := if img.resizeClamp then Some(Clamp(img.clampMaxWidth, img.clampMaxHeight)) else None,
        flags := CollectFlags(img.flags)))
  }

  /** The shared layer contributes nothing to an image job but the four filter choices. */
  predicate SameFilters(a: Shared, b: Shared)
  {
    a.resizeFilter == b.resizeFilter && a.resizeSharpen == b.resizeSharpen
    && a.mipmapFilter == b.mipmapFilter && a.mipmapSharpen == b.mipmapSharpen
  }

  lemma ImageJobLayers(img: ImageSettings, shared: Shared, src: Path)
    ensures ImageJob(img, shared, src).Failure? <==> img.embedToAlpha && img.imageToEmbed.None?
    ensures ImageJob(img, shared, src).Success? ==>
      var j := ImageJob(img, shared, src).value;
      && j.format == img.format && j.formatAlpha == img.formatAlpha
      && (j.mips.Some? <==> img.mipmapsEnable)
      && (j.mips.Some? ==> j.mips.value == Mips(shared.mipmapFilter, shared.mipmapSharpen))
      && (j.resize.Some? <==> img.enableResize)
      && (j.resize.Some? ==> j.resize.value == Resize(img.resizeMethod, shared.resizeFilter, shared.resizeSharpen))
      && (j.clamp.Some? <==> img.resizeClamp)
      && (j.clamp.Some? ==> j.clamp.value == Clamp(img.clampMaxWidth, img.clampMaxHeight))
      && j.computeRefl == img.computeRefl
      && j.src == src && j.dest == ImageDest(img, src)
      && (j.embedAlpha.Some? <==> img.embedToAlpha)
      && (forall f: Flag :: FlagName(f) in j.flags <==> f in img.flags)
  {
    CollectFlagsSpec(img.flags);
  }

  /** Changing anything in the shared layer other than the filters leaves image jobs alone. */
  lemma ImageJobSharedOnlyFilters(img: ImageSettings, a: Shared, b: Shared, src: Path)
    requires SameFilters(a, b)
    ensures ImageJob(img, a, src) == ImageJob(img, b, src)
  {
  }

  /** The job for one file matched by the batch operator. */
  function BatchJob(shared: Shared, batch: BatchSettings, src: Path): Job
  {
    Job(
      format := batch.format,
      formatAlpha := batch.formatAlpha,
      mips := if batch.mipmapsEnable then Some(Mips(shared.mipmapFilter, shared.mipmapSharpen)) else None,
      computeRefl := batch.computeRefl,
      src := src,
      dest := BatchDest(batch.output, src),
      embedAlpha := None,
      resize := if batch.enableResize then Some(Resize(batch.resizeMethod, shared.resizeFilter, shared.resizeSharpen)) else None,
      clamp := if batch.resizeClamp then Some(Clamp(batch.clampMaxWidth, batch.clampMaxHeight)) else None,
      flags := CollectFlags(shared.idFlags))
  }

  /** The batch operator's jobs: one per matched file, in the order the files were matched. */
  function BatchJobs(shared: Shared, batch: BatchSettings, matches: seq<Path>): (jobs: seq<Job>)
    ensures |jobs| == |matches|
    ensures forall i :: 0 <= i < |jobs| ==> jobs[i] == BatchJob(shared, batch, matches[i])
  {
    if |matches| == 0 then [] else [BatchJob(shared, batch, matches[0])] + BatchJobs(shared, batch, matches[1..])
  }

  lemma BatchJobLayers(shared: Shared, batch: BatchSettings, src: Path)
    ensures var j := BatchJob(shared, batch, src);
      && j.src == src
      && Parent(j.dest) == batch.output && Name(j.dest) == Stem(Name(src)) + ".vtf"
      && j.embedAlpha.None?
      && j.format == batch.format && j.formatAlpha == batch.formatAlpha
      && j.computeRefl == batch.computeRefl
      && (j.mips.Some? <==> batch.mipmapsEnable)
      && (j.mips.Some? ==> j.mips.value == Mips(shared.mipmapFilter, shared.mipmapSharpen))
      && (j.resize.Some? <==> batch.enableResize)
      && (j.resize.Some? ==> j.resize.value == Resize(batch.resizeMethod, shared.resizeFilter, shared.resizeSharpen))
      && (j.clamp.Some? <==> batch.resizeClamp)
      && (j.clamp.Some? ==> j.clamp.value == Clamp(batch.clampMaxWidth, batch.clampMaxHeight))
      && (forall f: Flag :: FlagName(f) in j.flags <==> f in shared.idFlags)
  {
    BatchDestNaming(batch.output, src);
    CollectFlagsSpec(shared.idFlags);
  }

  /** The batch group's own flag switches never reach a batch job. */
  lemma BatchFlagsIgnored(shared: Shared, batch: BatchSettings, other: set<Flag>, src: Path)
    ensures BatchJob(shared, batch, src) == BatchJob(shared, batch.(flags := other), src)
  {
  }

  // ---------------------------------------------------------------------------
  // Menu choices
  // ---------------------------------------------------------------------------

  /** Blender's enum properties hold only entries of their menus. */
  predicate SharedFromMenus(shared: Shared)
  {
    && shared.vtfVersion in VtfVersions
    && shared.resizeFilter in InterpFilters && shared.resizeSharpen in SharpenFilters
    && shared.mipmapFilter in InterpFilters && shared.mipmapSharpen in SharpenFilters
  }

  predicate ImageFromMenus(img: ImageSettings)
  {
    && img.format in Formats && img.formatAlpha in Formats
    && img.resizeMethod in ResizeMethods
    && img.clampMaxWidth in ClampSizes && img.clampMaxHeight in ClampSizes
  }

  predicate BatchFromMenus(batch: BatchSettings)
  {
    && batch.format in Formats && batch.formatAlpha in Formats
    && batch.resizeMethod in ResizeMethods
    && batch.clampMaxWidth in ClampSizes && batch.clampMaxHeight in ClampSizes
  }

  /** Every value a job hands to VTFCmd, other than paths and flags, is a menu entry. */
  predicate JobFromMenus(j: Job)
  {
    && j.format in Formats && j.formatAlpha in Formats
    && (j.mips.Some? ==> j.mips.value.filter in InterpFilters && j.mips.value.sharpen in SharpenFilters)
    && (j.resize.Some? ==>
          && j.resize.value.alignment in ResizeMethods
          && j.resize.value.filter in InterpFilters && j.resize.value.sharpen in SharpenFilters)
    && (j.clamp.Some? ==> j.clamp.value.width in ClampSizes && j.clamp.value.height in ClampSizes)
  }

  /** Settings picked from the menus give an image job whose values are all menu entries. */
  lemma ImageJobFromMenus(img: ImageSettings, shared: Shared, src: Path)
    requires ImageFromMenus(img) && SharedFromMenus(shared)
    ensures ImageJob(img, shared, src).Success? ==> JobFromMenus(ImageJob(img, shared, src).value)
  {
  }

  /** Settings picked from the menus give batch jobs whose values are all menu entries. */
  lemma BatchJobFromMenus(shared: Shared, batch: BatchSettings, src: Path)
    requires BatchFromMenus(batch) && SharedFromMenus(shared)
    ensures JobFromMenus(BatchJob(shared, batch, src))
  {
  }

  // ---------------------------------------------------------------------------
  // Wildcard split of the batch input path
  // ---------------------------------------------------------------------------

  const WildcardChars: seq<char> := ['!', '?', '*', '/', '\\', '<', '>', '|']

  /** The characters of `name` and the wildcard characters have one in common. */
  predicate HasWildcard(name: string)
  {
    exists i :: 0 <= i < |name| && name[i] in WildcardChars
  }

  datatype Location = Location(folder: Path, pattern: string)

  /** Splits the input path into the folder to search and the glob to search it with. */
  function SplitWildcard(input: Path): Location
  {
    if HasWildcard(Name(input)) then Location(Parent(input), Name(input)) else Location(input, "*.*")
  }

  /**
   * A path whose last component has a wildcard character splits into its parent and that
   * component, and joining them gives the input back; any other path is searched whole with `*.*`.
   */
  lemma SplitWildcardSpec(input: Path)
    ensures HasWildcard(Name(input)) ==>
      && SplitWildcard(input).pattern == Name(input)
      && Join(SplitWildcard(input).folder, SplitWildcard(input).pattern) == input
    ensures !HasWildcard(Name(input)) ==> SplitWildcard(input) == Location(input, "*.*")
  {
    if HasWildcard(Name(input)) {
      ParentJoinName(input);
    }
  }

  /** The `/` entry of the wildcard set can never match: a name holds no separator. */
  lemma SlashNeverMatches(input: Path)
    ensures HasWildcard(Name(input)) <==>
      exists i :: 0 <= i < |Name(input)| && Name(input)[i] in WildcardChars && Name(input)[i] != '/'
  {
  }
}
