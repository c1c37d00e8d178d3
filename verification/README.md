# blvtf core, modelled in Dafny

blvtf is a Blender add-on. It turns images into Valve textures (VTF) with the VTFCmd encoder,
and it builds skyboxes for the Source engine. This project models the add-on's three pure layers
and proves properties about them:

- **Jobs and the VTFCmd command line** (`jobs.dfy`, `vtfcmd.dfy`, `export.dfy`):
  - building a job dictionary from the per-image, batch-folder and shared settings;
  - the ordered VTFCmd argument list;
  - the choice of the file VTFCmd reads (alpha-embedded composite or original);
  - the TGA pre-conversion decision;
  - temporary and destination file naming;
  - the wildcard split of a batch input path;
  - the batch loop.

  ImageMagick and VTFCmd are not executed. The model asks an oracle (`Export.World`) three
  things: which files exist, what size an image has, and whether a given tool call leaves its
  target file.
- **The VMT writer** (`vmt.dfy`): the `simple_vmt` object (defaults, `shader` property,
  `setparams`, `add_params`) and `to_vmt` with its skip rules and vector rendering. A small
  reader of the text it writes serves as the partner for a round-trip lemma.
- **The skybox tables** (`skybox.dfy`): face order, face sizes, camera
  shift, the vtex directive files, and the LDR and HDR materials of each face.

Supporting modules:
- `wrappers.dfy`: `Option` and `Result`.
- `text.dfy`: the Python string operations used (`split`, `join`, `strip() == ''`, `rfind`,
  `replace`).
- `decimal.dfy`: `str()` of integers.
- `paths.dfy`: POSIX `pathlib` semantics.
- `tables.dfy`: the constant tables: flag properties, supported suffixes and the setting menus.

Behaviour worth knowing:

- The clamp block `-rclampwidth W -rclampheight H` is emitted whenever clamping is on, whether
  or not resizing is.
- `.gif` is not among the extensions VTFCmd reads directly, so GIF sources are converted to TGA
  first.
- After a failed job the batch does not continue. An exception inside one job escapes the loop
  in `OBJECT_OT_blvtf_folder_convert.execute`, so the batch stops after the first job that
  raised (`Export.RunUntilFailure`).
- The temporary files are deleted only after the move of VTFCmd's output, so a failed move
  leaves them in place. A run whose `moved` field is false stands for that failed move, which
  raises.
- The converted TGA is never the file VTFCmd reads: `img_src_w_alpha or img_src or
  img_src_converted` always stops at the always-truthy `img_src`.
- When the alpha image's stem is the colour image's stem followed by `.wa` (`a.png` with
  `a.wa.png`) and the sizes differ, the resized alpha copy and the composite are the same
  temporary file, `<stem>.wa.tga`. The composite step first deletes that file. The cleanup of
  the resized copy then deletes whatever the composite wrote. Embedding returns False, and
  VTFCmd reads the colour image without the alpha (`Export.CollisionLosesComposite`).
- A hidden or cut-off bottom face is rendered at 8×8, although the "No bottom" option's
  description speaks of a 4×4 square.

## Model

| member | source | states |
|---|---|---|
| Tables.StripFlagProp | __init__.py:497-500 | Removing the `vtf_flag_` prefix from a flag property name gives exactly the VTFCmd flag name |
| Tables.FlagOrderIsComplete | __init__.py:661-682 | The flag property table lists all twenty flags, each exactly once |
| Tables.FlagByNameInverse | __init__.py:661-682 | Every flag name reads back as its flag, so distinct flags have distinct names |
| Jobs.CollectSound | __init__.py:497-500 | Every collected flag name belongs to a flag that is set to True and is in the walked table |
| Jobs.CollectOrdered | __init__.py:497-500 | Collected names appear in the order of the walked table |
| Jobs.CollectComplete | __init__.py:497-500 | The name of every flag that is set to True and is in the walked table is collected |
| Jobs.CollectFlagsSpec | __init__.py:594-597 | A job's flag list holds a flag's name iff that flag is True, in declaration order, with no duplicates |
| Jobs.ImageDestNaming | __init__.py:489-495 | Per-image destination: `<export dir>/<src stem>.vtf`, or `<export dir>/<new name>.vtf` when renaming is on |
| Jobs.BatchDestNaming | __init__.py:606 | Batch destination: the parent is the output folder and the name is `<src stem>.vtf` |
| Jobs.ImageJobLayers | __init__.py:484-513 | Image jobs fail iff embedding is on with no image chosen. Format pair, enable switches, resize method, clamp sizes and reflectivity come from the image; filter and sharpen values come from the shared settings; flags are the image's True flags |
| Jobs.ImageJobSharedOnlyFilters | __init__.py:503-514 | Shared settings other than the four filter choices never change an image job |
| Jobs.BatchJobs | __init__.py:600-612 | One batch job per matched file, in match order |
| Jobs.BatchJobLayers | __init__.py:601-611 | Batch jobs never embed alpha. Format pair, switches, method, clamp and reflectivity come from the batch settings; filters come from the shared settings; flags come from the shared group's flag properties |
| Jobs.BatchFlagsIgnored | __init__.py:593-597 | The batch group's own flag switches never reach a batch job |
| Jobs.ImageJobFromMenus | __init__.py:687-796 | An image job built from settings picked in the menus (formats, resize method, clamp sizes, shared filters) carries only menu entries in every value it hands to VTFCmd |
| Jobs.BatchJobFromMenus | __init__.py:999-1086 | A batch job built from settings picked in the menus carries only menu entries in every value it hands to VTFCmd |
| Jobs.SplitWildcardSpec | __init__.py:576-590 | A last component sharing a character with the wildcard set (`!`, `?`, `*`, `/`, backslash, `<`, `>`, the vertical bar) becomes the glob, and the parent becomes the folder, with folder / glob giving back the input. Otherwise the glob is `*.*` on the whole path |
| Jobs.SlashNeverMatches | __init__.py:576-588 | The `/` entry of the wildcard set can never be what triggers the split |
| VtfCmd.ParseRender | __init__.py:398-457 | Every VTFCmd invocation is parsed back unchanged from its rendered command line (the argv grammar's round trip) |
| VtfCmd.BuildArgsIsRender | __init__.py:398-457 | The exporter's argument list is exactly the rendering of the invocation that the job and settings request |
| VtfCmd.BuildArgsDecodes | __init__.py:398-457 | The argument list parses under VTFCmd's grammar. The exe is the new build iff the setting is `new`. Resize and clamp blocks appear iff requested, each independently. `-rsharpen`/`-msharpen` appear only for the old build. Exactly one of `-mfilter` and `-nomipmaps` appears. `-noreflectivity` appears iff compute-reflectivity is off, `-nothumbnail` iff the thumbnail setting is off. The flags appear in order, and the output is the destination's folder |
| Export.GeometryRoundTrip | __init__.py:292 | The forced size argument `<W>x<H>!` reads back as exactly the size it was built from |
| Export.ResizeArgvGeometry | __init__.py:286-294 | The resize call asks ImageMagick for exactly the colour image's size |
| Export.EmbedAlpha | __init__.py:326-362 | Embedding raises exactly when a resize was needed and left no file, because `False.unlink()` raises |
| Export.EmbedAlphaSpec | __init__.py:330-357 | The alpha image is resized iff the two sizes differ, and the resize argument reads back as exactly the colour image's size. The composite call's alpha argument is the resized copy iff there is one, and the original alpha otherwise. The resized copy is deleted after the composite, and nothing else is |
| Export.EmbedAlphaResult | __init__.py:339-362 | The composite is returned iff ImageMagick left it and the cleanup of the resized copy did not delete it. A returned composite is the `<rgb stem>.wa.tga` target, and it is never the deleted file |
| Export.TempNamesCollide | __init__.py:288-340 | The resize target and the composite target are the same temporary file iff the alpha image's stem is the colour image's stem followed by `.wa` |
| Export.TempNamesCollideExample | __init__.py:288-340 | `/x/a.png` with the alpha image `/x/a.wa.png` is such a colliding pair |
| Export.CollisionLosesComposite | __init__.py:339-392 | With colliding names and differing sizes, embedding never returns a composite, and VTFCmd reads the original colour image with no TGA conversion |
| Export.CompositeResultNaming | __init__.py:339-362 | The composite is `<rgb stem>.wa.tga` directly in the temporary folder |
| Export.TmpNaming | __init__.py:288 | A temporary `<stem><ext>` lands directly in the temporary folder under that name |
| Export.FalsePathParses | __init__.py:382 | `Path(str(False))` is the relative path `False` |
| Export.PrepareSpec | __init__.py:386-396 | Embedding is attempted iff the alpha path is an existing file. TGA conversion runs iff the suffix is unsupported and no embedding was attempted, and leaves `<stem>.tga`. The input is the composite when there is one, else the original, so never the converted TGA |
| Export.EncodeSpec | __init__.py:398-476 | VTFCmd reads the chosen input and writes into the destination's folder as `<input stem>.vtf`. That file moves to the destination with suffix `.vtf` and the same stem. Temporaries are deleted only after a successful move |
| Export.ExportImageFails | __init__.py:379-476 | A job raises before VTFCmd's output is moved exactly when embedding raised or the destination has no name |
| Export.ExportImageCompletes | __init__.py:459-476 | A job completes iff nothing raised before the move and VTFCmd left its output. Otherwise `shutil.move` raises, which the run records as `moved` false, and no temporary file is deleted |
| Export.ExportDatablockSpec | __init__.py:479-514 | The per-image export fails with the missing-embed-image error iff embedding is on and no image is chosen. Otherwise it is exactly the export of the image's job |
| Export.BatchAlphaQuirk | __init__.py:382-389 | A batch job (`emb_alpha` False) embeds nothing unless a file named `False` exists in the working directory |
| Export.RunUntilFailure | __init__.py:600-612 | Jobs run in order. Every job before the last one completed, and the loop stops early only right after a job that did not complete |
| Export.RunBatch | __init__.py:600-612 | Each run is the export of its job, in order, stopping after the first job that did not complete |
| Export.BatchConvert | __init__.py:572-612 | The glob runs on the split folder and pattern, and one batch job per match runs, in match order, until the first failure |
| Vmt.SetShader | simple_vmt.py:50-57 | The setter stores `str(value)`, which the getter returns, and changes nothing else |
| Vmt.SetParams | simple_vmt.py:132-133 | `setparams` replaces the parameter mapping wholesale and changes nothing else |
| Vmt.SetParam | simple_vmt.py:59-61 | Writing through `params` succeeds iff it is a dictionary. Afterwards the key holds the value and the shader and other keys are untouched |
| Vmt.Assign | simple_vmt.py:59-61 | After `d[k] = v` the key holds `v` and the size grows by at most one |
| Vmt.AssignOthers | simple_vmt.py:59-61 | Assigning one key leaves every other key's value as it was |
| Vmt.FreshText | simple_vmt.py:36-47 | A fresh object renders as `"VertexLitGeneric"`, `\n{` and `\n}` with nothing between |
| Vmt.KeptValues | simple_vmt.py:84-93 | Under a non-blank key, integers (0 too), booleans (False too) and tuples are written. Strings are written iff not blank, and None never |
| Vmt.BlankKeySkipped | simple_vmt.py:88-93 | An item whose key strips to empty adds nothing to the text, wherever it stands and whatever its value |
| Vmt.KeptPairsNoBlankKey | simple_vmt.py:88-93 | No key a reader finds in the written text is blank |
| Vmt.VectorTrailingSpace | simple_vmt.py:100-114 | A tuple is written as `[` … ` ]`: the space before `]` stays, because the `replace` result is discarded |
| Vmt.VectorElements | simple_vmt.py:104-110 | Inside the brackets, each element is written followed by one space, in order: splitting the inside at spaces gives the elements back, plus one empty field for the trailing space |
| Vmt.ReadLine | simple_vmt.py:95-118 | One parameter line reads as its key and rendered value, followed by whatever the rest reads as |
| Vmt.ReadLines | simple_vmt.py:88-122 | The parameter lines and closing brace read back as exactly the kept pairs, in order |
| Vmt.ReadToVmt | simple_vmt.py:64-124 | Reading `to_vmt`'s text gives the shader text and exactly the kept parameters, in insertion order, with their rendered values |
| Vmt.AddParamsKeepsText | simple_vmt.py:128-130 | `add_params` with keys other than `shader` and `params` never changes the text |
| Vmt.SetParamsDecides | simple_vmt.py:132-133 | After `setparams` the text depends only on the shader and the new mapping |
| Vmt.ShaderRoundTrip | simple_vmt.py:55-78 | The shader stored by the setter is what a reader finds first in the text |
| Skybox.FaceByTag | blvtf_skyboxer.py:266-273 | A face suffix names the face it was made from |
| Skybox.FaceOrderIsPermutation | blvtf_skyboxer.py:266-273 | Faces are processed in the order of the `sidez` keys, ft, lf, bk, up, rt, dn, each exactly once, and each face's suffix names it back |
| Skybox.Height | blvtf_skyboxer.py:172-175 | The face height is `int(size / 2)` with half size on, otherwise the size |
| Skybox.CutFacesAreTheNonSquare | blvtf_skyboxer.py:276-294 | With an offered size, a face is non-square iff it is a side face of a half-size sky. It is then twice as wide as tall, and exactly those faces get a camera shift |
| Skybox.FaceSizes | blvtf_skyboxer.py:276-284 | The top face is always `size` square. Each side face is `size` wide and `int(size / 2)` or `size` tall. The bottom is 8×8 when hidden or cut off and `size` square otherwise, so a sky with neither option renders six `size` squares |
| Skybox.NoBottomOnlyShrinksDn | blvtf_skyboxer.py:276-284 | The no-bottom option changes the size of the bottom face only |
| Skybox.CamShiftValues | blvtf_skyboxer.py:287-294 | A cut side face's camera is shifted by 0.25; every other face, top and bottom included, by 0 |
| Skybox.FaceSidesArePowersOfTwo | blvtf_skyboxer.py:276-284 | With an offered size, every face side is a power of two of at least 4 |
| Skybox.HdrDirectiveFile | blvtf_skyboxer.py:451-498 | The HDR directive file's lines are the non-empty directives, in list order |
| Skybox.HdrFixedLines | blvtf_skyboxer.py:451-462 | `nolod 1`, `nomip 1`, `clamps 1` and `clampt 1` are always in the HDR directive file |
| Skybox.HdrNoNiceLine | blvtf_skyboxer.py:455 | `nonice 1` is written iff the size exceeds 256 |
| Skybox.HdrPfmLine | blvtf_skyboxer.py:456 | `pfm 1` is written iff the sky is HDR |
| Skybox.HdrPfmScaleLine | blvtf_skyboxer.py:457 | `pfmscale 1` is written iff the sky is HDR |
| Skybox.HdrCompressionLines | blvtf_skyboxer.py:459-463 | `nocompress 1` is written iff HDR and uncompressed, and `pointsample 1` iff compressed |
| Skybox.LdrDirectiveFile | blvtf_skyboxer.py:480-487 | The LDR directive file is always the same six lines, in list order |
| Skybox.TextureBaseText | blvtf_skyboxer.py:489 | The texture base is `skybox/<name>/<name>` for a plain name, and `skybox` for an empty one |
| Skybox.TransformKept | blvtf_skyboxer.py:549 | The texture transform line is written exactly on the side faces of half-size skies |
| Skybox.LdrMaterialText | blvtf_skyboxer.py:540-550 | The LDR material reads back as shader `UnlitGeneric`, then `nofog 1`, `ignorez 1`, `basetexture skybox/<name>/<name><face>`, and the transform on cut faces only |
| Skybox.HdrMaterialText | blvtf_skyboxer.py:507-517 | The HDR material reads back as shader `sky` and the base texture, then `<base>_hdr<face>` under `hdrcompressedtexture` (compressed) or `hdrbasetexture`, and the transform on cut faces only |

## Left out

- Running ImageMagick and VTFCmd for the exporter: each call is an oracle answer in
  `Export.World` (`produces` for "the call left its target file", `dims` for the size probe).
  The JSON probe output is not parsed.
- The skybox builder's vtex and ImageMagick (EXR to PFM) calls are not modelled, nor is the
  add-on setup's 7-Zip unpacking (`blvtf_ensure_addon_setup`).
- File system effects are not performed. The move of VTFCmd's output and the deletions of
  temporary files are recorded as fields: `moved` and `removed` of the run, and `deleted` of the
  alpha embedding.
- `rmtree`, `mkdir` and the skybox file writes are not recorded.
- The `unlink(missing_ok=True)` calls that clear a stale target before the composite and the
  TGA conversion are not recorded. The one that matters, the composite target deleting the
  resized copy, is reflected in `Export.EmbedAlpha`'s result. When the colour or alpha image is
  itself the composite target, the oracle's answer for the composite call stands for whatever
  ImageMagick does after that deletion.
- `glob` enumeration: the matches are an input function of folder and pattern.
- Blender property groups, panels, operators and registration, `bpy.path.abspath` (paths
  arrive absolute), and the marked-images operator's loop over datablocks.
- Skybox rendering, camera setup (the `sidez` rotations, `math.radians`, floats), progress reporting, scene
  settings save and restore, and the skybox output file paths.
- Windows path semantics: paths follow POSIX `pathlib` (no drive letters, no backslash
  separator).
- The `multImetr()` demo run at import time.
- Vmt.Value: tuple elements are kept as the strings `str()` gives for them. Floats are not
  formatted.
- Vmt.ToVmt: a dictionary as the shader is an error outcome (`ShaderIsTable`); the text of
  its `repr` is not modelled.
- Vmt.ReadToVmt: stated only for materials with no `"` in the shader, keys or values, because
  the text format has no escapes.
- Skybox.LdrMaterialText, Skybox.HdrMaterialText: stated for sky names that are one path
  component with no `"`, for the same reason.
- Export.EmbedAlpha: the composite call that still runs before `False.unlink()` raises is not
  recorded in the error outcome.
- JSON parse errors and missing keys in the probe output are not modelled.
