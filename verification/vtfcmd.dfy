/**
 * The VTFCmd command line. `BuildArgs` assembles it from a job the way the exporter does;
 * `ParseArgs` reads a command line back by VTFCmd's grammar
 *
 *   exe -file IN [-resize -rmethod M -rfilter F [-rsharpen S]] [-rclampwidth W -rclampheight H]
 *   -format F -alphaformat A (-mfilter F [-msharpen S] | -nomipmaps) -version V
 *   [-noreflectivity] [-nothumbnail] (-flag NAME)* -output DIR
 *
 * and the lemmas tie the two together.
 */
module VtfCmd {
  import opened Wrappers
  import opened Paths
  import opened Jobs

  // ---------------------------------------------------------------------------
  // Tool locations under the add-on's directory
  // ---------------------------------------------------------------------------

  function Bins(root: Path): Path { Join(root, "bins") }
  function NewExe(root: Path): Path { Join(Join(Bins(root), "vtfcmd"), "VTFCmd.exe") }
  function OldExe(root: Path): Path { Join(Join(Bins(root), "vtfcmd_old"), "VTFCmd.exe") }
  function MagickExe(root: Path): Path { Join(Join(Bins(root), "imgmagick"), "magick.exe") }
  function TmpFolder(root: Path): Path { Join(root, "tmps") }

  function Exe(root: Path, encoder: Encoder): Path
  {
    if encoder == New then NewExe(root) else OldExe(root)
  }

  // ---------------------------------------------------------------------------
  // Assembly, as the exporter does it
  // ---------------------------------------------------------------------------

  function FlagArgs(flags: seq<string>): seq<string>
  {
    if |flags| == 0 then [] else ["-flag", flags[0]] + FlagArgs(flags[1..])
  }

  /** The argument list for one job; `input` is the file actually fed to the encoder. */
  function BuildArgs(job: Job, shared: Shared, input: Path, root: Path): seq<string>
  {
    var legacy := shared.encoder == Old;
    var head := [ToString(Exe(root, shared.encoder)), "-file", ToString(input)];
    var resize :=
      match job.resize
      case None => []
      case Some(r) =>
        ["-resize", "-rmethod", r.alignment, "-rfilter", r.filter]
        + (if legacy then ["-rsharpen", r.sharpen] else []);
    var clamp :=
      match job.clamp
      case None => []
      case Some(c) => ["-rclampwidth", c.width, "-rclampheight", c.height];
    var format := ["-format", job.format, "-alphaformat", job.formatAlpha];
    var mips :=
      match job.mips
      case Some(m) => ["-mfilter", m.filter] + (if legacy then ["-msharpen", m.sharpen] else [])
      case None => ["-nomipmaps"];
    var version := ["-version", shared.vtfVersion];
    var refl := if job.computeRefl != true then ["-noreflectivity"] else [];
    var thumb := if shared.generateThumb != true then ["-nothumbnail"] else [];
    var output := ["-output", ToString(Parent(job.dest))];
    // the pieces in the order the exporter appends them
    head + (resize + (clamp + (format + (mips + (version + (refl + (thumb + (FlagArgs(job.flags) + output))))))))
  }

  // ---------------------------------------------------------------------------
  // VTFCmd's side: what a command line asks for
  // ---------------------------------------------------------------------------

  datatype ResizeArgs = ResizeArgs(alignment: string, filter: string, sharpen: Option<string>)
  datatype MipArgs = MipArgs(filter: string, sharpen: Option<string>)

  datatype Invocation = Invocation(
    exe: string,
    input: string,
    resize: Option<ResizeArgs>,
    clamp: Option<Clamp>,
    format: string,
    alphaFormat: string,
    mips: Option<MipArgs>,
    version: string,
    noReflectivity: bool,
    noThumbnail: bool,
    flags: seq<string>,
    output: string)

  /** A parsed piece and the arguments after it. */
  datatype Step<T> = Step(value: T, rest: seq<string>)

  function ParseResize(a: seq<string>): Option<Step<Option<ResizeArgs>>>
  {
    if |a| > 0 && a[0] == "-resize" then
      if |a| >= 5 && a[1] == "-rmethod" && a[3] == "-rfilter" then
        if |a| >= 7 && a[5] == "-rsharpen" then Some(Step(Some(ResizeArgs(a[2], a[4], Some(a[6]))), a[7..]))
        else Some(Step(Some(ResizeArgs(a[2], a[4], None)), a[5..]))
      else None
    else Some(Step(None, a))
  }

  function ParseClamp(a: seq<string>): Option<Step<Option<Clamp>>>
  {
    if |a| > 0 && a[0] == "-rclampwidth" then
      if |a| >= 4 && a[2] == "-rclampheight" then Some(Step(Some(Clamp(a[1], a[3])), a[4..]))
      else None
    else Some(Step(None, a))
  }

  function ParseMips(a: seq<string>): Option<Step<Option<MipArgs>>>
  {
    if |a| >= 2 && a[0] == "-mfilter" then
      if |a| >= 4 && a[2] == "-msharpen" then Some(Step(Some(MipArgs(a[1], Some(a[3]))), a[4..]))
      else Some(Step(Some(MipArgs(a[1], None)), a[2..]))
    else if |a| >= 1 && a[0] == "-nomipmaps" then Some(Step(None, a[1..]))
    else None
  }

  function ParseSwitch(a: seq<string>, name: string): Step<bool>
  {
    if |a| > 0 && a[0] == name then Step(true, a[1..]) else Step(false, a)
  }

  function ParseFlags(a: seq<string>): Step<seq<string>>
    decreases |a|
  {
    if |a| >= 2 && a[0] == "-flag" then
      var s := ParseFlags(a[2..]);
      Step([a[1]] + s.value, s.rest)
    else Step([], a)
  }

  /** The switches, flags and output after `-version V`. */
  datatype Ending = Ending(noReflectivity: bool, noThumbnail: bool, flags: seq<string>, output: string)

  function ParseEnding(c: seq<string>): Option<Ending>
  {
    var r4 := ParseSwitch(c, "-noreflectivity");
    var r5 := ParseSwitch(r4.rest, "-nothumbnail");
    var r6 := ParseFlags(r5.rest);
    if |r6.rest| == 2 && r6.rest[0] == "-output" then
      Some(Ending(r4.value, r5.value, r6.value, r6.rest[1]))
    else None
  }

  /** Everything from `-format` on. */
  datatype Encoding = Encoding(format: string, alphaFormat: string, mips: Option<MipArgs>, version: string, ending: Ending)

  function ParseEncoding(b: seq<string>): Option<Encoding>
  {
    if |b| < 4 || b[0] != "-format" || b[2] != "-alphaformat" then None
    else
      var r3 := ParseMips(b[4..]);
      if r3.None? then None
      else
        var c := r3.value.rest;
        if |c| < 2 || c[0] != "-version" then None
        else
          var e := ParseEnding(c[2..]);
          if e.None? then None else Some(Encoding(b[1], b[3], r3.value.value, c[1], e.value))
  }

  /** Reads a command line by VTFCmd's grammar; None when it does not follow it. */
  function ParseArgs(a: seq<string>): Option<Invocation>
  {
    if |a| < 3 || a[1] != "-file" then None
    else
      var r1 := ParseResize(a[3..]);
      if r1.None? then None
      else
        var r2 := ParseClamp(r1.value.rest);
        if r2.None? then None
        else
          var t := ParseEncoding(r2.value.rest);
          if t.None? then None
          else
            var e := t.value.ending;
            Some(Invocation(a[0], a[2], r1.value.value, r2.value.value, t.value.format, t.value.alphaFormat,
                            t.value.mips, t.value.version, e.noReflectivity, e.noThumbnail, e.flags, e.output))
  }

  // ---------------------------------------------------------------------------
  // Writing an invocation out, and reading it back
  // ---------------------------------------------------------------------------

  function ResizeTokens(r: Option<ResizeArgs>): seq<string>
  {
    match r
    case None => []
    case Some(x) =>
      ["-resize", "-rmethod", x.alignment, "-rfilter", x.filter]
      + (match x.sharpen case None => [] case Some(s) => ["-rsharpen", s])
  }

  function ClampTokens(c: Option<Clamp>): seq<string>
  {
    match c
    case None => []
    case Some(x) => ["-rclampwidth", x.width, "-rclampheight", x.height]
  }

  function MipTokens(m: Option<MipArgs>): seq<string>
  {
    match m
    case None => ["-nomipmaps"]
    case Some(x) => ["-mfilter", x.filter] + (match x.sharpen case None => [] case Some(s) => ["-msharpen", s])
  }

  function SwitchTokens(on: bool, name: string): seq<string>
  {
    if on then [name] else []
  }

  /** The command line that asks for `inv`. */
  function Render(inv: Invocation): seq<string>
  {
    [inv.exe, "-file", inv.input] + (ResizeTokens(inv.resize) + (ClampTokens(inv.clamp)
    + (["-format", inv.format, "-alphaformat", inv.alphaFormat] + (MipTokens(inv.mips)
    + (["-version", inv.version] + (SwitchTokens(inv.noReflectivity, "-noreflectivity")
    + (SwitchTokens(inv.noThumbnail, "-nothumbnail") + (FlagArgs(inv.flags) + ["-output", inv.output]))))))))
  }

  lemma ParseResizeTokens(x: Option<ResizeArgs>, rest: seq<string>)
    requires |rest| > 0 && rest[0] != "-resize" && rest[0] != "-rsharpen"
    ensures ParseResize(ResizeTokens(x) + rest) == Some(Step(x, rest))
  {
    var a := ResizeTokens(x) + rest;
    if x.None? {
      assert a == rest;
    } else {
      if x.value.sharpen.Some? {
        assert a[7..] == rest;
      } else {
        assert a[5..] == rest;
      }
    }
  }

  lemma ParseClampTokens(x: Option<Clamp>, rest: seq<string>)
    requires |rest| > 0 && rest[0] != "-rclampwidth"
    ensures ParseClamp(ClampTokens(x) + rest) == Some(Step(x, rest))
  {
    var a := ClampTokens(x) + rest;
    if x.None? {
      assert a == rest;
    } else {
      assert a[4..] == rest;
    }
  }

  lemma ParseMipTokens(x: Option<MipArgs>, rest: seq<string>)
    requires |rest| > 0 && rest[0] != "-msharpen"
    ensures ParseMips(MipTokens(x) + rest) == Some(Step(x, rest))
  {
    var a := MipTokens(x) + rest;
    match x
    case None =>
      assert a[1..] == rest;
    case Some(m) =>
      if m.sharpen.Some? {
        assert a[4..] == rest;
      } else {
        assert a[2..] == rest;
      }
  }

  lemma ParseSwitchTokens(on: bool, name: string, rest: seq<string>)
    requires |rest| > 0 && rest[0] != name
    ensures ParseSwitch(SwitchTokens(on, name) + rest, name) == Step(on, rest)
  {
    if on {
      assert (SwitchTokens(on, name) + rest)[1..] == rest;
    }
  }

  lemma {:induction false} ParseFlagTokens(flags: seq<string>, output: string)
    ensures ParseFlags(FlagArgs(flags) + ["-output", output]) == Step(flags, ["-output", output])
    decreases |flags|
  {
    var a := FlagArgs(flags) + ["-output", output];
    if |flags| > 0 {
      assert a[2..] == FlagArgs(flags[1..]) + ["-output", output];
      ParseFlagTokens(flags[1..], output);
      assert [flags[0]] + flags[1..] == flags;
    }
  }

  lemma ParseEndingTokens(inv: Invocation)
    ensures ParseEnding(SwitchTokens(inv.noReflectivity, "-noreflectivity")
      + (SwitchTokens(inv.noThumbnail, "-nothumbnail") + (FlagArgs(inv.flags) + ["-output", inv.output])))
      == Some(Ending(inv.noReflectivity, inv.noThumbnail, inv.flags, inv.output))
  {
    var tFlags := FlagArgs(inv.flags) + ["-output", inv.output];
    var tThumb := SwitchTokens(inv.noThumbnail, "-nothumbnail") + tFlags;
    ParseFlagTokens(inv.flags, inv.output);
    assert tFlags[0] == "-flag" || tFlags[0] == "-output";
    ParseSwitchTokens(inv.noThumbnail, "-nothumbnail", tFlags);
    ParseSwitchTokens(inv.noReflectivity, "-noreflectivity", tThumb);
  }

  lemma ParseEncodingTokens(inv: Invocation)
    ensures ParseEncoding(["-format", inv.format, "-alphaformat", inv.alphaFormat] + (MipTokens(inv.mips)
      + (["-version", inv.version] + (SwitchTokens(inv.noReflectivity, "-noreflectivity")
      + (SwitchTokens(inv.noThumbnail, "-nothumbnail") + (FlagArgs(inv.flags) + ["-output", inv.output]))))))
      == Some(Encoding(inv.format, inv.alphaFormat, inv.mips, inv.version,
                       Ending(inv.noReflectivity, inv.noThumbnail, inv.flags, inv.output)))
  {
    var tRefl := SwitchTokens(inv.noReflectivity, "-noreflectivity")
      + (SwitchTokens(inv.noThumbnail, "-nothumbnail") + (FlagArgs(inv.flags) + ["-output", inv.output]));
    var tVer := ["-version", inv.version] + tRefl;
    var tMips := MipTokens(inv.mips) + tVer;
    var tFmt := ["-format", inv.format, "-alphaformat", inv.alphaFormat] + tMips;
    ParseEndingTokens(inv);
    assert tVer[2..] == tRefl;
    ParseMipTokens(inv.mips, tVer);
    assert tFmt[4..] == tMips;
  }

  /** Every invocation is read back from its command line unchanged. */
  lemma ParseRender(inv: Invocation)
    ensures ParseArgs(Render(inv)) == Some(inv)
  {
    var tFmt := ["-format", inv.format, "-alphaformat", inv.alphaFormat] + (MipTokens(inv.mips)
      + (["-version", inv.version] + (SwitchTokens(inv.noReflectivity, "-noreflectivity")
      + (SwitchTokens(inv.noThumbnail, "-nothumbnail") + (FlagArgs(inv.flags) + ["-output", inv.output])))));
    var tClamp := ClampTokens(inv.clamp) + tFmt;
    var tResize := ResizeTokens(inv.resize) + tClamp;
    var a := [inv.exe, "-file", inv.input] + tResize;
    assert Render(inv) == a;
    assert a[3..] == tResize;
    ParseEncodingTokens(inv);
    ParseClampTokens(inv.clamp, tFmt);
    ParseResizeTokens(inv.resize, tClamp);
  }

  /** What the exporter asks VTFCmd for, written out field by field. */
  function Requested(job: Job, shared: Shared, input: Path, root: Path): Invocation
  {
    var legacy := shared.encoder == Old;
    Invocation(
      exe := ToString(Exe(root, shared.encoder)),
      input := ToString(input),
      resize := match job.resize
        case None => None
        case Some(r) => Some(ResizeArgs(r.alignment, r.filter, if legacy then Some(r.sharpen) else None)),
      clamp := job.clamp,
      format := job.format,
      alphaFormat := job.formatAlpha,
      mips := match job.mips
        case None => None
        case Some(m) => Some(MipArgs(m.filter, if legacy then Some(m.sharpen) else None)),
      version := shared.vtfVersion,
      noReflectivity := !job.computeRefl,
      noThumbnail := !shared.generateThumb,
      flags := job.flags,
      output := ToString(Parent(job.dest)))
  }

  lemma BuildArgsIsRender(job: Job, shared: Shared, input: Path, root: Path)
    ensures BuildArgs(job, shared, input, root) == Render(Requested(job, shared, input, root))
  {
    var inv := Requested(job, shared, input, root);
    var legacy := shared.encoder == Old;
    var resize :=
      match job.resize
      case None => []
      case Some(r) =>
        ["-resize", "-rmethod", r.alignment, "-rfilter", r.filter]
        + (if legacy then ["-rsharpen", r.sharpen] else []);
    assert resize == ResizeTokens(inv.resize);
    var mips :=
      match job.mips
      case Some(m) => ["-mfilter", m.filter] + (if legacy then ["-msharpen", m.sharpen] else [])
      case None => ["-nomipmaps"];
    assert mips == MipTokens(inv.mips);
    var clamp :=
      match job.clamp
      case None => []
      case Some(c) => ["-rclampwidth", c.width, "-rclampheight", c.height];
    assert clamp == ClampTokens(inv.clamp);
  }

  /**
   * The exporter's command line, read by VTFCmd's grammar: the encoder build chosen by the
   * shared setting; resize and clamp blocks present exactly when the job asks for them (each
   * on its own), sharpen filters only for the old build; exactly one of mipmap filter and
   * `-nomipmaps`; the reflectivity and thumbnail switches when those are not True; the job's
   * flags in order; the destination's folder as output.
   */
  lemma BuildArgsDecodes(job: Job, shared: Shared, input: Path, root: Path)
    ensures ParseArgs(BuildArgs(job, shared, input, root)).Some?
    ensures var inv := ParseArgs(BuildArgs(job, shared, input, root)).value;
      && inv.exe == ToString(if shared.encoder == New then NewExe(root) else OldExe(root))
      && inv.input == ToString(input)
      && (inv.resize.Some? <==> job.resize.Some?)
      && (inv.resize.Some? ==>
            && inv.resize.value.alignment == job.resize.value.alignment
            && inv.resize.value.filter == job.resize.value.filter
            && (inv.resize.value.sharpen.Some? <==> shared.encoder == Old)
            && (inv.resize.value.sharpen.Some? ==> inv.resize.value.sharpen.value == job.resize.value.sharpen))
      && inv.clamp == job.clamp
      && inv.format == job.format && inv.alphaFormat == job.formatAlpha
      && (inv.mips.Some? <==> job.mips.Some?)
      && (inv.mips.Some? ==>
            && inv.mips.value.filter == job.mips.value.filter
            && (inv.mips.value.sharpen.Some? <==> shared.encoder == Old)
            && (inv.mips.value.sharpen.Some? ==> inv.mips.value.sharpen.value == job.mips.value.sharpen))
      && inv.version == shared.vtfVersion
      && (inv.noReflectivity <==> !job.computeRefl)
      && (inv.noThumbnail <==> !shared.generateThumb)
      && inv.flags == job.flags
      && inv.output == ToString(Parent(job.dest))
  {
    BuildArgsIsRender(job, shared, input, root);
    ParseRender(Requested(job, shared, input, root));
  }
}
