/**
 * The material writer: a shader name and a table of `$`-parameters, rendered as
 *
 *     "<shader>"
 *     {
 *         "$<key>" "<value>"
 *     }
 *
 * with empty parameters skipped and tuples written as bracketed vectors.
 */
module Vmt {
  import opened Wrappers
  import Text
  import Decimal

  /**
   * A value a material can hold. Tuple elements are numbers, kept as the text `str()` gives
   * for each of them.
   */
  datatype Value = NoneValue | Str(s: string) | Int(i: int) | Bool(b: bool) | Tuple(elems: seq<string>)

  /** The items of a dictionary, in insertion order. */
  type Params = seq<(string, Value)>

  /** A value stored at the top level of a material: a scalar or a dictionary. */
  datatype Entry = Scalar(v: Value) | Table(items: Params)

  /** The top-level dictionary, with its two keys the writer reads held apart from the rest. */
  datatype Material = Material(shader: Entry, params: Entry, others: map<string, Entry>)

  datatype VmtError =
    | ParamsNotIterable   // iterating an int, a bool or None raises
    | ParamsNotMapping    // indexing a string or a tuple by a non-blank element raises
    | ShaderIsTable       // the text of a dictionary as the shader is not modelled

  // ---------------------------------------------------------------------------
  // Python's str()
  // ---------------------------------------------------------------------------

  /** `', '.join(elems)`. */
  function CommaJoin(elems: seq<string>): string
  {
    if |elems| == 0 then ""
    else if |elems| == 1 then elems[0]
    else elems[0] + ", " + CommaJoin(elems[1..])
  }

  /** `str(v)`. */
  function PyStr(v: Value): string
  {
    match v
    case NoneValue => "None"
    case Str(s) => s
    case Int(i) => Decimal.IntToString(i)
    case Bool(b) => if b then "True" else "False"
    case Tuple(elems) => "(" + (if |elems| == 1 then elems[0] + "," else CommaJoin(elems)) + ")"
  }

  // ---------------------------------------------------------------------------
  // The object
  // ---------------------------------------------------------------------------

  /** A new material: shader `VertexLitGeneric`, no parameters and no proxies. */
  function Fresh(): Material
  {
    Material(Scalar(Str("VertexLitGeneric")), Table([]), map["proxies" := Table([])])
  }

  /** The shader setter stores the text of its argument and touches nothing else. */
  function SetShader(m: Material, v: Value): (r: Material)
    ensures r.shader.Scalar? && r.shader.v.Str? && r.shader.v.s == PyStr(v)
    ensures r.params == m.params && r.others == m.others
  {
    m.(shader := Scalar(Str(PyStr(v))))
  }

  /** `setparams`: the parameter entry is replaced wholesale. */
  function SetParams(m: Material, d: Entry): (r: Material)
    ensures r.params == d && r.shader == m.shader && r.others == m.others
  {
    m.(params := d)
  }

  /** `main_vmt[k] = e`. */
  function Put(m: Material, k: string, e: Entry): Material
  {
    if k == "shader" then m.(shader := e)
    else if k == "params" then m.(params := e)
    else m.(others := m.others[k := e])
  }

  /** `add_params`: each item is written as a top-level key, later items winning. */
  function AddParams(m: Material, more: seq<(string, Entry)>): Material
    decreases |more|
  {
    if |more| == 0 then m else AddParams(Put(m, more[0].0, more[0].1), more[1..])
  }

  /** Python's `d[k]` on a dictionary's items. */
  function Lookup(items: Params, k: string): Option<Value>
  {
    if |items| == 0 then None
    else if items[0].0 == k then Some(items[0].1)
    else Lookup(items[1..], k)
  }

  /** `d[k] = v`: an existing key keeps its place, a new key goes last. */
  function Assign(items: Params, k: string, v: Value): (r: Params)
    ensures |r| == |items| || |r| == |items| + 1
    ensures Lookup(r, k) == Some(v)
    decreases |items|
  {
    if |items| == 0 then [(k, v)]
    else if items[0].0 == k then [(k, v)] + items[1..]
    else [items[0]] + Assign(items[1..], k, v)
  }

  /** Assigning one key leaves every other key's value as it was. */
  lemma {:induction false} AssignOthers(items: Params, k: string, v: Value, j: string)
    requires j != k
    ensures Lookup(Assign(items, k, v), j) == Lookup(items, j)
    decreases |items|
  {
    if |items| > 0 && items[0].0 != k {
      AssignOthers(items[1..], k, v, j);
    }
  }

  /** Writing through the `params` property, which only a dictionary supports. */
  function SetParam(m: Material, k: string, v: Value): (r: Result<Material, VmtError>)
    ensures r.Success? <==> m.params.Table?
    ensures r.Success? ==>
      && r.value.shader == m.shader && r.value.others == m.others
      && r.value.params.Table? && Lookup(r.value.params.items, k) == Some(v)
  {
    match m.params
    case Table(items) => Success(m.(params := Table(Assign(items, k, v))))
    case Scalar(x) => Failure(if x.Str? || x.Tuple? then ParamsNotMapping else ParamsNotIterable)
  }

  // ---------------------------------------------------------------------------
  // Rendering
  // ---------------------------------------------------------------------------

  /** The skip rule: a blank key, a `None` value, or a value whose text is blank. */
  predicate Kept(k: string, v: Value)
  {
    !(Text.Blank(k) || Text.Blank(PyStr(v)) || v == NoneValue || v == Str(""))
  }

  /** `str(e) + ' '` for each element: the space before `]` stays. */
  function Vector(elems: seq<string>): string
  {
    if |elems| == 0 then "" else elems[0] + " " + Vector(elems[1..])
  }

  function RenderValue(v: Value): string
  {
    if v.Tuple? then "[" + Vector(v.elems) + "]" else PyStr(v)
  }

  /** One parameter line. */
  function Line(k: string, v: Value): string
  {
    "\n\t\"$" + k + "\" \"" + RenderValue(v) + "\""
  }

  function Lines(items: Params): string
  {
    if |items| == 0 then ""
    else (if Kept(items[0].0, items[0].1) then Line(items[0].0, items[0].1) else "") + Lines(items[1..])
  }

  /** Iterating the parameter entry: a dictionary renders its items; anything else raises unless it has no non-blank element. */
  function Body(e: Entry): Result<string, VmtError>
  {
    match e
    case Table(items) => Success(Lines(items))
    case Scalar(Str(s)) => if Text.Blank(s) then Success("") else Failure(ParamsNotMapping)
    case Scalar(Tuple(elems)) => if |elems| == 0 then Success("") else Failure(ParamsNotMapping)
    case Scalar(_) => Failure(ParamsNotIterable)
  }

  /** `to_vmt`. */
  function ToVmt(m: Material): Result<string, VmtError>
  {
    match m.shader
    case Table(_) => Failure(ShaderIsTable)
    case Scalar(s) =>
      match Body(m.params)
      case Failure(e) => Failure(e)
      case Success(body) => Success("\"" + PyStr(s) + "\"\n{" + body + "\n}")
  }

  // ---------------------------------------------------------------------------
  // Reading a material back
  // ---------------------------------------------------------------------------

  /** What a reader of the text sees: the shader and the parameter pairs in order. */
  datatype Doc = Doc(shader: string, params: seq<(string, string)>)

  /** The text up to the next quote, and what follows that quote. */
  function ReadQuoted(s: string): (r: Option<(string, string)>)
    ensures r.Some? ==> |r.value.1| < |s|
  {
    if |s| == 0 then None
    else if s[0] == '"' then Some(("", s[1..]))
    else
      match ReadQuoted(s[1..])
      case None => None
      case Some((a, rest)) => Some(([s[0]] + a, rest))
  }

  /** Parameter lines up to the closing brace. */
  function ReadParams(s: string): Option<seq<(string, string)>>
    decreases |s|
  {
    if s == "\n}" then Some([])
    else if |s| < 4 || s[..4] != "\n\t\"$" then None
    else
      match ReadQuoted(s[4..])
      case None => None
      case Some((k, r1)) =>
        if |r1| < 2 || r1[..2] != " \"" then None
        else
          match ReadQuoted(r1[2..])
          case None => None
          case Some((v, r2)) =>
            match ReadParams(r2)
            case None => None
            case Some(ps) => Some([(k, v)] + ps)
  }

  function ReadVmt(s: string): Option<Doc>
  {
    if |s| == 0 || s[0] != '"' then None
    else
      match ReadQuoted(s[1..])
      case None => None
      case Some((shader, r)) =>
        if |r| < 2 || r[..2] != "\n{" then None
        else
          match ReadParams(r[2..])
          case None => None
          case Some(ps) => Some(Doc(shader, ps))
  }

  /** The pairs a reader should find: the kept items, each with its rendered value. */
  function KeptPairs(items: Params): seq<(string, string)>
  {
    if |items| == 0 then []
    else if Kept(items[0].0, items[0].1) then [(items[0].0, RenderValue(items[0].1))] + KeptPairs(items[1..])
    else KeptPairs(items[1..])
  }

  function ExpectedPairs(e: Entry): seq<(string, string)>
  {
    if e.Table? then KeptPairs(e.items) else []
  }

  /** The text format has no escapes: no quote may occur in the shader, a key or a value. */
  predicate QuoteFree(m: Material)
  {
    && m.shader.Scalar? && '"' !in PyStr(m.shader.v)
    && (m.params.Table? ==> QuoteFreeItems(m.params.items))
  }

  lemma {:induction false} ReadQuotedSpec(a: string, rest: string)
    requires '"' !in a
    ensures ReadQuoted(a + "\"" + rest) == Some((a, rest))
    decreases |a|
  {
    if |a| == 0 {
      assert a + "\"" + rest == "\"" + rest;
    } else {
      assert (a + "\"" + rest)[1..] == a[1..] + "\"" + rest;
      ReadQuotedSpec(a[1..], rest);
      assert [a[0]] + a[1..] == a;
    }
  }

  /** One kept line is read back as its key and rendered value. */
  lemma ReadLine(k: string, v: Value, rest: string)
    requires '"' !in k && '"' !in RenderValue(v)
    ensures ReadParams(Line(k, v) + rest) ==
      match ReadParams(rest)
      case None => None
      case Some(ps) => Some([(k, RenderValue(v))] + ps)
  {
    var val := RenderValue(v);
    var r1 := " \"" + (val + ("\"" + rest));
    var s := Line(k, v) + rest;
    assert s == "\n\t\"$" + (k + ("\"" + r1));
    ReadPairHead(k, r1, s);
    ReadQuotedSpec(k, r1);
    ReadPairValue(val, rest, r1);
    ReadQuotedSpec(val, rest);
  }

  lemma ReadPairHead(k: string, r1: string, s: string)
    requires s == "\n\t\"$" + (k + ("\"" + r1))
    ensures s != "\n}" && |s| >= 4 && s[..4] == "\n\t\"$" && s[4..] == k + "\"" + r1
  {
    assert s[1] == '\t';
  }

  lemma ReadPairValue(val: string, rest: string, r1: string)
    requires r1 == " \"" + (val + ("\"" + rest))
    ensures |r1| >= 2 && r1[..2] == " \"" && r1[2..] == val + "\"" + rest
  {
  }

  /** No quote in any key or value. */
  predicate QuoteFreeItems(items: Params)
  {
    forall i :: 0 <= i < |items| ==> '"' !in items[i].0 && '"' !in RenderValue(items[i].1)
  }

  /** `KeptPairs` one item at a time. */
  lemma KeptPairsCons(k: string, v: Value, rest: Params)
    ensures KeptPairs([(k, v)] + rest) ==
      (if Kept(k, v) then [(k, RenderValue(v))] else []) + KeptPairs(rest)
  {
    assert ([(k, v)] + rest)[1..] == rest;
  }

  lemma {:induction false} ReadLines(items: Params)
    requires QuoteFreeItems(items)
    ensures ReadParams(Lines(items) + "\n}") == Some(KeptPairs(items))
    decreases |items|
  {
    if |items| == 0 {
      assert Lines(items) + "\n}" == "\n}";
    } else {
      var k := items[0].0;
      var v := items[0].1;
      var rest := Lines(items[1..]);
      assert QuoteFreeItems(items[1..]) by {
        assert forall i :: 0 <= i < |items[1..]| ==> items[1..][i] == items[i + 1];
      }
      ReadLines(items[1..]);
      assert items == [(k, v)] + items[1..];
      KeptPairsCons(k, v, items[1..]);
      if Kept(k, v) {
        assert Lines(items) == Line(k, v) + rest;
        assert Lines(items) + "\n}" == Line(k, v) + (rest + "\n}");
        assert '"' !in k && '"' !in RenderValue(v);
        ReadLine(k, v, rest + "\n}");
      } else {
        assert Lines(items) == rest;
      }
    }
  }

  /**
   * Reading the rendered text gives back the shader text and exactly the kept parameters,
   * in dictionary order, each with its rendered value.
   */
  lemma ReadToVmt(m: Material)
    requires ToVmt(m).Success? && QuoteFree(m)
    ensures ReadVmt(ToVmt(m).value) == Some(Doc(PyStr(m.shader.v), ExpectedPairs(m.params)))
  {
    var sh := PyStr(m.shader.v);
    var body := Body(m.params).value;
    var s := ToVmt(m).value;
    var tail := body + "\n}";
    assert s == "\"" + (sh + "\"" + ("\n{" + tail));
    assert s[1..] == sh + "\"" + ("\n{" + tail);
    ReadQuotedSpec(sh, "\n{" + tail);
    assert ("\n{" + tail)[2..] == tail;
    if m.params.Table? {
      ReadLines(m.params.items);
    } else {
      assert tail == "\n}";
    }
  }

  // ---------------------------------------------------------------------------
  // Properties
  // ---------------------------------------------------------------------------

  lemma IntTextNotBlank(i: int)
    ensures !Text.Blank(Decimal.IntToString(i))
  {
    var s := Decimal.NatToString(if i < 0 then -i else i);
    assert Decimal.IsDigit(s[0]);
    assert !Text.IsSpace(Decimal.IntToString(i)[0]);
  }

  /**
   * Under a non-blank key: integers (0 included), booleans (False included) and tuples are
   * always written, strings exactly when not blank, and None never.
   */
  lemma KeptValues(k: string, v: Value)
    requires !Text.Blank(k)
    ensures v.Int? || v.Bool? || v.Tuple? ==> Kept(k, v)
    ensures v.Str? ==> (Kept(k, v) <==> !Text.Blank(v.s))
    ensures v.NoneValue? ==> !Kept(k, v)
  {
    match v
    case Int(i) => IntTextNotBlank(i);
    case Bool(b) => assert !Text.IsSpace(PyStr(v)[0]);
    case Tuple(_) => assert PyStr(v)[0] == '(';
    case Str(s) =>
    case NoneValue =>
  }

  /** The text of two runs of items is the text of the first followed by that of the second. */
  lemma {:induction false} LinesAppend(a: Params, b: Params)
    ensures Lines(a + b) == Lines(a) + Lines(b)
    decreases |a|
  {
    var ab := a + b;
    if |a| == 0 {
      assert ab == b;
    } else {
      assert ab[0] == a[0] && ab[1..] == a[1..] + b;
      LinesAppend(a[1..], b);
      var h := if Kept(a[0].0, a[0].1) then Line(a[0].0, a[0].1) else "";
      assert Lines(ab) == h + Lines(ab[1..]);
      assert Lines(a) == h + Lines(a[1..]);
    }
  }

  /** An item under a blank key adds nothing to the text, wherever it stands and whatever its value. */
  lemma BlankKeySkipped(k: string, v: Value, before: Params, after: Params)
    requires Text.Blank(k)
    ensures Lines(before + [(k, v)] + after) == Lines(before + after)
  {
    LinesAppend(before + [(k, v)], after);
    LinesAppend(before, [(k, v)]);
    LinesAppend(before, after);
    assert Lines([(k, v)]) == "";
  }

  /** No key a reader finds in the text is blank. */
  lemma {:induction false} KeptPairsNoBlankKey(items: Params)
    ensures forall i :: 0 <= i < |KeptPairs(items)| ==> !Text.Blank(KeptPairs(items)[i].0)
    decreases |items|
  {
    if |items| > 0 {
      KeptPairsNoBlankKey(items[1..]);
      KeptPairsCons(items[0].0, items[0].1, items[1..]);
      assert [(items[0].0, items[0].1)] + items[1..] == items;
    }
  }

  /**
   * A written tuple is `[`, then each element followed by one space, in order, then `]`:
   * splitting the inside at spaces gives the elements back and one empty field for the
   * trailing space.
   */
  lemma VectorElements(elems: seq<string>)
    requires forall i :: 0 <= i < |elems| ==> ' ' !in elems[i]
    ensures var t := RenderValue(Tuple(elems));
      && |t| >= 2 && t[0] == '[' && t[|t| - 1] == ']'
      && Text.Split(t[1..|t| - 1], ' ') == elems + [""]
  {
    var t := RenderValue(Tuple(elems));
    assert t[1..|t| - 1] == Vector(elems);
    VectorSplit(elems);
  }

  lemma {:induction false} VectorSplit(elems: seq<string>)
    requires forall i :: 0 <= i < |elems| ==> ' ' !in elems[i]
    ensures Text.Split(Vector(elems), ' ') == elems + [""]
    decreases |elems|
  {
    if |elems| > 0 {
      VectorSplit(elems[1..]);
      assert Vector(elems) == elems[0] + [' '] + Vector(elems[1..]);
      Text.SplitCons(elems[0], ' ', Vector(elems[1..]));
      assert [elems[0]] + (elems[1..] + [""]) == elems + [""];
    }
  }

  /** A written tuple ends in `<last element> ]`: the space before the bracket is not removed. */
  lemma {:induction false} VectorTrailingSpace(elems: seq<string>)
    requires |elems| > 0
    ensures var t := RenderValue(Tuple(elems));
      |t| >= 3 && t[0] == '[' && t[|t| - 2..] == " ]"
    decreases |elems|
  {
    if |elems| > 1 {
      VectorTrailingSpace(elems[1..]);
    }
    assert |Vector(elems)| > 0 && Vector(elems)[|Vector(elems)| - 1] == ' ' by {
      VectorEndsInSpace(elems);
    }
  }

  lemma {:induction false} VectorEndsInSpace(elems: seq<string>)
    requires |elems| > 0
    ensures |Vector(elems)| > 0 && Vector(elems)[|Vector(elems)| - 1] == ' '
    decreases |elems|
  {
    if |elems| > 1 {
      VectorEndsInSpace(elems[1..]);
      assert Vector(elems) == (elems[0] + " ") + Vector(elems[1..]);
    }
  }

  /** A fresh material renders as its shader and an empty block. */
  lemma FreshText()
    ensures ToVmt(Fresh()) == Success("\"VertexLitGeneric\"\n{\n}")
  {
    assert Body(Fresh().params) == Success("");
    assert "\"" + "VertexLitGeneric" + "\"\n{" + "" + "\n}" == "\"VertexLitGeneric\"\n{\n}";
  }

  /** `add_params` without the keys `shader` and `params` never changes the rendered text. */
  lemma {:induction false} AddParamsKeepsText(m: Material, more: seq<(string, Entry)>)
    requires forall i :: 0 <= i < |more| ==> more[i].0 != "shader" && more[i].0 != "params"
    ensures AddParams(m, more).shader == m.shader && AddParams(m, more).params == m.params
    ensures ToVmt(AddParams(m, more)) == ToVmt(m)
    decreases |more|
  {
    if |more| > 0 {
      assert forall i :: 0 <= i < |more[1..]| ==> more[1..][i] == more[i + 1];
      AddParamsKeepsText(Put(m, more[0].0, more[0].1), more[1..]);
    }
  }

  /** After `setparams`, the text depends only on the shader and the new parameters. */
  lemma SetParamsDecides(m1: Material, m2: Material, d: Entry)
    requires m1.shader == m2.shader
    ensures ToVmt(SetParams(m1, d)) == ToVmt(SetParams(m2, d))
  {
  }

  /** The shader written by the setter is what the reader finds first. */
  lemma ShaderRoundTrip(m: Material, v: Value)
    requires ToVmt(m).Success? && QuoteFree(m) && '"' !in PyStr(v)
    ensures ToVmt(SetShader(m, v)).Success?
    ensures ReadVmt(ToVmt(SetShader(m, v)).value).Some?
    ensures ReadVmt(ToVmt(SetShader(m, v)).value).value.shader == PyStr(v)
  {
    ReadToVmt(SetShader(m, v));
  }
}
