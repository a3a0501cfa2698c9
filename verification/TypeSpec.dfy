/** The type grammar of the models file: its shorthand parser and its structural fold
    (`framework/spec/types.py`). */
module TypeSpec {
  import opened Options
  import opened Stripping

  datatype Type =
    | Primitive(name: string)
    | ListOf(of: Type)
    | DictOf(key: Type, value: Type)
    | OptionalOf(inner: Type)
    | EnumOf(values: seq<string>, default: Option<string>)

  const Primitives: set<string> := {"int", "string", "bool", "float", "datetime", "uuid", "json"}

  // ------------------------------------------------------------------------ the fold

  /** The leaf hooks of a renderer. */
  datatype Renderer<!T> = Renderer(
    primitive: string -> T,
    listOf: T -> T,
    dictOf: (T, T) -> T,
    optionalOf: T -> T,
    enumOf: (seq<string>, Option<string>) -> T)

  function Fold<T>(t: Type, r: Renderer<T>): T {
    match t
    case Primitive(name) => r.primitive(name)
    case ListOf(of) => r.listOf(Fold(of, r))
    case DictOf(key, value) => r.dictOf(Fold(key, r), Fold(value, r))
    case OptionalOf(inner) => r.optionalOf(Fold(inner, r))
    case EnumOf(values, default) => r.enumOf(values, default)
  }

  /** The bracketed form of the Python renderer over the shorthand's own names, with what it
      puts after a comma. */
  function Printer(gap: string): Renderer<string> {
    Renderer(
      name => name,
      item => "list[" + item + "]",
      (key, value) => "dict[" + key + "," + gap + value + "]",
      inner => inner + " | None",
      (values, default) => "str")
  }

  function Print(t: Type, gap: string): string {
    Fold(t, Printer(gap))
  }

  /** The types the shorthand has a form for: primitives, lists, and dicts with primitive keys. */
  predicate HasShorthand(t: Type) {
    match t
    case Primitive(name) => name in Primitives
    case ListOf(of) => HasShorthand(of)
    case DictOf(key, value) => key.Primitive? && HasShorthand(key) && HasShorthand(value)
    case _ => false
  }

  // ------------------------------------------------------------------------ the parser

  /** Where a split at the first comma cuts. */
  function FirstComma(s: string): Option<nat> {
    if s == "" then None
    else if s[0] == ',' then Some(0)
    else
      var rest := FirstComma(s[1..]);
      if rest.None? then None else Some(rest.value + 1)
  }

  lemma {:induction false} FirstCommaIsWithin(s: string)
    ensures FirstComma(s).Some? ==>
              var i := FirstComma(s).value; i < |s| && s[i] == ',' && forall j :: 0 <= j < i ==> s[j] != ','
    ensures FirstComma(s).None? ==> forall j :: 0 <= j < |s| ==> s[j] != ','
  {
    if s != "" && s[0] != ',' {
      FirstCommaIsWithin(s[1..]);
    }
  }

  predicate Bracketed(s: string, open: string) {
    |s| > |open| && s[..|open|] == open && s[|s| - 1] == ']'
  }

  /** `parse_type_spec` of a string; none is the ValueError. */
  function Parse(s: string): Option<Type>
    decreases |s|
  {
    if s in Primitives then Some(Primitive(s))
    else if Bracketed(s, "list[") then
      var item := Parse(s[5..|s| - 1]);
      if item.None? then None else Some(ListOf(item.value))
    else if Bracketed(s, "dict[") then
      var inner := s[5..|s| - 1];
      var cut := FirstComma(inner);
      if cut.None? then None
      else
        FirstCommaIsWithin(inner);
        var left, right := inner[..cut.value], inner[cut.value + 1..];
        StripShortens(left);
        StripShortens(right);
        var key, value := Parse(Strip(left)), Parse(Strip(right));
        if key.None? || value.None? || !key.value.Primitive? then None else Some(DictOf(key.value, value.value))
    else None
  }

  // ------------------------------------------------------------------- the language

  /** `s` is a dict shorthand with these parts: blanks are allowed around key and value only. */
  ghost predicate DictParts(s: string, key: string, value: string, a: string, b: string, c: string, d: string) {
    && AllSpace(a) && AllSpace(b) && AllSpace(c) && AllSpace(d)
    && s == "dict[" + (a + key + b) + "," + (c + value + d) + "]"
  }

  /** `s` is a shorthand for `t`. */
  ghost predicate Spells(s: string, t: Type)
    decreases t
  {
    match t
    case Primitive(name) => name in Primitives && s == name
    case ListOf(of) => Bracketed(s, "list[") && Spells(s[5..|s| - 1], of)
    case DictOf(key, value) =>
      && key.Primitive? && key.name in Primitives
      && exists v, a, b, c, d :: DictParts(s, key.name, v, a, b, c, d) && Spells(v, value)
    case _ => false
  }

  lemma NamesAreWords(name: string)
    requires name in Primitives
    ensures forall i :: 0 <= i < |name| ==> name[i] != ',' && name[i] != '[' && name[i] != ']' && !IsSpace(name[i])
    ensures name != ""
  {
  }

  lemma SpellingsAreTrimmed(s: string, t: Type)
    requires Spells(s, t)
    ensures Trimmed(s)
  {
    match t
    case Primitive(name) => NamesAreWords(name);
    case ListOf(_) => assert s[0] == "list["[0];
    case DictOf(key, value) =>
      var v, a, b, c, d :| DictParts(s, key.name, v, a, b, c, d) && Spells(v, value);
      assert s[0] == 'd' && s[|s| - 1] == ']';
    case _ =>
  }

  lemma {:induction false} FirstCommaOf(x: string, y: string)
    requires forall i :: 0 <= i < |x| ==> x[i] != ','
    ensures FirstComma(x + "," + y) == Some(|x|)
  {
    if x == "" {
      assert x + "," + y == "," + y;
    } else {
      FirstCommaOf(x[1..], y);
      assert (x + "," + y)[1..] == x[1..] + "," + y;
    }
  }

  /** What the parser accepts is a spelling of what it answers. */
  lemma {:induction false} ParseIsSound(s: string)
    requires Parse(s).Some?
    ensures Spells(s, Parse(s).value)
    decreases |s|
  {
    if s in Primitives {
    } else if Bracketed(s, "list[") {
      ParseIsSound(s[5..|s| - 1]);
    } else {
      var inner := s[5..|s| - 1];
      var cut := FirstComma(inner).value;
      FirstCommaIsWithin(inner);
      StripShortens(inner[..cut]);
      StripShortens(inner[cut + 1..]);
      ParseIsSound(Strip(inner[..cut]));
      ParseIsSound(Strip(inner[cut + 1..]));
      var a, b, c, d := DictSplits(s);
    }
  }

  lemma DictSplits(s: string) returns (a: string, b: string, c: string, d: string)
    requires Bracketed(s, "dict[") && FirstComma(s[5..|s| - 1]).Some?
    ensures var inner := s[5..|s| - 1];
            var cut := FirstComma(inner).value;
            cut < |inner| && DictParts(s, Strip(inner[..cut]), Strip(inner[cut + 1..]), a, b, c, d)
  {
    hide Strip, FirstComma;
    var inner := s[5..|s| - 1];
    var cut := FirstComma(inner).value;
    FirstCommaIsWithin(inner);
    var left, right := inner[..cut], inner[cut + 1..];
    a, b := StripSplits(left);
    c, d := StripSplits(right);
    assert s == "dict[" + inner + "]" && inner == left + "," + right;
  }

  /** Every spelling of a type is parsed to that type: the split at the first comma is right
      because a key has none. */
  lemma {:induction false} ParseIsComplete(s: string, t: Type)
    requires Spells(s, t)
    ensures Parse(s) == Some(t)
    decreases t
  {
    match t
    case Primitive(_) =>
    case ListOf(of) =>
      ParseIsComplete(s[5..|s| - 1], of);
      NotAName(s);
    case DictOf(key, value) =>
      var v, a, b, c, d :| DictParts(s, key.name, v, a, b, c, d) && Spells(v, value);
      ParseIsComplete(v, value);
      SpellingsAreTrimmed(v, value);
      DictIsParsed(s, key.name, v, a, b, c, d);
    case _ =>
  }

  lemma NotAName(s: string)
    requires |s| > 0 && s[|s| - 1] == ']'
    ensures s !in Primitives
  {
    if s in Primitives {
      NamesAreWords(s);
    }
  }

  lemma DictIsParsed(s: string, key: string, v: string, a: string, b: string, c: string, d: string)
    requires DictParts(s, key, v, a, b, c, d) && key in Primitives && Trimmed(v)
    ensures Parse(s) == if Parse(v).None? then None else Some(DictOf(Primitive(key), Parse(v).value))
  {
    hide Primitives, IsSpace, AllSpace, Trimmed, Strip, FirstComma;
    var left, right := a + key + b, c + v + d;
    InnerOfDict(s, left + "," + right);
    NotAName(s);
    NoCommaBeside(key, a, b);
    FirstCommaOf(left, right);
    CutAtComma(left, right);
    NamesAreTrimmed(key);
    StripOf(a, key, b);
    StripOf(c, v, d);
  }

  lemma InnerOfDict(s: string, inner: string)
    requires s == "dict[" + inner + "]"
    ensures Bracketed(s, "dict[") && s[5..|s| - 1] == inner && !Bracketed(s, "list[") && s[|s| - 1] == ']'
  {
    assert s[0] == 'd' && "list["[0] == 'l';
    assert s[..5][0] == s[0];
  }

  lemma CutAtComma(left: string, right: string)
    ensures var inner := left + "," + right; inner[..|left|] == left && inner[|left| + 1..] == right
  {
  }

  lemma NoCommaBeside(key: string, a: string, b: string)
    requires key in Primitives && AllSpace(a) && AllSpace(b)
    ensures forall i :: 0 <= i < |a + key + b| ==> (a + key + b)[i] != ','
  {
    hide Primitives;
    NamesAreWords(key);
  }

  lemma NamesAreTrimmed(key: string)
    requires key in Primitives
    ensures Trimmed(key) && Parse(key) == Some(Primitive(key))
  {
    hide Primitives;
    NamesAreWords(key);
  }

  /** The parser accepts exactly the shorthand language, and each string stands for one type. */
  lemma ParseIsExact(s: string, t: Type)
    ensures Parse(s) == Some(t) <==> Spells(s, t)
  {
    if Parse(s) == Some(t) {
      ParseIsSound(s);
    }
    if Spells(s, t) {
      ParseIsComplete(s, t);
    }
  }

  /** Only types with a shorthand are answered. */
  lemma {:induction false} SpelledTypesHaveShorthand(s: string, t: Type)
    requires Spells(s, t)
    ensures HasShorthand(t)
    decreases t
  {
    match t
    case Primitive(_) =>
    case ListOf(of) => SpelledTypesHaveShorthand(s[5..|s| - 1], of);
    case DictOf(key, value) =>
      var v, a, b, c, d :| DictParts(s, key.name, v, a, b, c, d) && Spells(v, value);
      SpelledTypesHaveShorthand(v, value);
    case _ =>
  }

  // ------------------------------------------------------------------- the round trips

  lemma {:induction false} PrintedIsSpelled(t: Type, gap: string)
    requires HasShorthand(t) && AllSpace(gap)
    ensures Spells(Print(t, gap), t)
  {
    hide AllSpace, DictParts, Bracketed;
    match t
    case Primitive(_) =>
    case ListOf(of) =>
      PrintedIsSpelled(of, gap);
      PrintedListParts(of, gap);
    case DictOf(key, value) =>
      PrintedIsSpelled(value, gap);
      PrintedDictParts(key.name, value, gap);
  }

  lemma PrintedListParts(of: Type, gap: string)
    ensures var s := Print(ListOf(of), gap); Bracketed(s, "list[") && s[5..|s| - 1] == Print(of, gap)
  {
    var s := "list[" + Print(of, gap) + "]";
    assert s[5..|s| - 1] == Print(of, gap);
  }

  lemma PrintedDictParts(key: string, value: Type, gap: string)
    requires AllSpace(gap)
    ensures DictParts(Print(DictOf(Primitive(key), value), gap), key, Print(value, gap), "", "", gap, "")
  {
    var v := Print(value, gap);
    assert Print(Primitive(key), gap) == key;
    assert Print(DictOf(Primitive(key), value), gap) == Printer(gap).dictOf(key, v);
    assert "dict[" + key + "," + gap + v + "]" == "dict[" + ("" + key + "") + "," + (gap + v + "") + "]";
  }

  /** Parsing the printed form of a type returns the type, whatever blanks follow the commas. */
  lemma ParsePrint(t: Type, gap: string)
    requires HasShorthand(t) && AllSpace(gap)
    ensures Parse(Print(t, gap)) == Some(t)
  {
    PrintedIsSpelled(t, gap);
    ParseIsComplete(Print(t, gap), t);
  }

  /** The string without its blanks. */
  function Squeeze(s: string): string {
    if s == "" then "" else Squeeze(s[..|s| - 1]) + if IsSpace(s[|s| - 1]) then "" else [s[|s| - 1]]
  }

  lemma {:induction false} SqueezeConcat(x: string, y: string)
    ensures Squeeze(x + y) == Squeeze(x) + Squeeze(y)
  {
    if y == "" {
      assert x + y == x;
    } else {
      SqueezeConcat(x, y[..|y| - 1]);
      assert (x + y)[..|x + y| - 1] == x + y[..|y| - 1];
    }
  }

  lemma {:induction false} SqueezeSpace(s: string)
    requires AllSpace(s)
    ensures Squeeze(s) == ""
  {
    if s != "" {
      SqueezeSpace(s[..|s| - 1]);
    }
  }

  lemma {:induction false} SqueezeWord(s: string)
    requires forall i :: 0 <= i < |s| ==> !IsSpace(s[i])
    ensures Squeeze(s) == s
  {
    if s != "" {
      SqueezeWord(s[..|s| - 1]);
    }
  }

  lemma SqueezeAround(a: string, s: string, b: string)
    requires AllSpace(a) && AllSpace(b)
    ensures Squeeze(a + s + b) == Squeeze(s)
  {
    SqueezeConcat(a + s, b);
    SqueezeConcat(a, s);
    SqueezeSpace(a);
    SqueezeSpace(b);
  }

  lemma SqueezeBetween(open: string, s: string, close: string)
    requires forall i :: 0 <= i < |open| ==> !IsSpace(open[i])
    requires forall i :: 0 <= i < |close| ==> !IsSpace(close[i])
    ensures Squeeze(open + s + close) == open + Squeeze(s) + close
  {
    SqueezeConcat(open + s, close);
    SqueezeConcat(open, s);
    SqueezeWord(open);
    SqueezeWord(close);
  }

  lemma {:induction false} SpellingsSqueeze(s: string, t: Type)
    requires Spells(s, t)
    ensures Squeeze(s) == Print(t, "")
    decreases t
  {
    hide Squeeze, Print, Primitives, DictParts;
    match t
    case Primitive(name) =>
      NamesAreWords(name);
      SqueezeWord(s);
      PrintedName(name);
    case ListOf(of) =>
      SpellingsSqueeze(s[5..|s| - 1], of);
      ListSqueezes(s);
      PrintedList(of);
    case DictOf(key, value) =>
      var v, a, b, c, d :| DictParts(s, key.name, v, a, b, c, d) && Spells(v, value);
      SpellingsSqueeze(v, value);
      DictSqueezes(s, key.name, v, a, b, c, d);
      PrintedDict(key.name, value);
      assert t == DictOf(Primitive(key.name), value);
    case _ =>
  }

  lemma ListSqueezes(s: string)
    requires Bracketed(s, "list[")
    ensures Squeeze(s) == "list[" + Squeeze(s[5..|s| - 1]) + "]"
  {
    var inner := s[5..|s| - 1];
    assert s == "list[" + inner + "]";
    SqueezeBetween("list[", inner, "]");
  }

  lemma PrintedName(name: string)
    ensures Print(Primitive(name), "") == name
  {
  }

  lemma PrintedList(of: Type)
    ensures Print(ListOf(of), "") == "list[" + Print(of, "") + "]"
  {
  }

  lemma PrintedDict(key: string, value: Type)
    ensures Print(DictOf(Primitive(key), value), "") == "dict[" + (key + "," + Print(value, "")) + "]"
  {
    var v := Print(value, "");
    PrintedName(key);
    assert Print(DictOf(Primitive(key), value), "") == Printer("").dictOf(key, v);
    assert "dict[" + key + "," + "" + v + "]" == "dict[" + (key + "," + v) + "]";
  }

  lemma SqueezeComma(left: string, right: string)
    ensures Squeeze(left + "," + right) == Squeeze(left) + "," + Squeeze(right)
  {
    SqueezeConcat(left + ",", right);
    SqueezeConcat(left, ",");
    SqueezeWord(",");
  }

  lemma DictSqueezes(s: string, key: string, v: string, a: string, b: string, c: string, d: string)
    requires DictParts(s, key, v, a, b, c, d) && key in Primitives
    ensures Squeeze(s) == "dict[" + (key + "," + Squeeze(v)) + "]"
  {
    hide Squeeze;
    var left, right := a + key + b, c + v + d;
    var middle := left + "," + right;
    NamesAreWords(key);
    SqueezeAround(a, key, b);
    SqueezeAround(c, v, d);
    SqueezeWord(key);
    SqueezeComma(left, right);
    assert s == "dict[" + middle + "]";
    SqueezeBetween("dict[", middle, "]");
  }

  /** Every accepted string, its blanks removed, is the printed form of its parse. */
  lemma PrintParse(s: string)
    requires Parse(s).Some?
    ensures HasShorthand(Parse(s).value)
    ensures Squeeze(s) == Print(Parse(s).value, "")
  {
    ParseIsSound(s);
    SpelledTypesHaveShorthand(s, Parse(s).value);
    SpellingsSqueeze(s, Parse(s).value);
  }
}
