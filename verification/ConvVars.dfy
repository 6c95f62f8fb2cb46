/** The list of convenience variables (`convvar.c`). */
module ConvVars {
  import opened Longs
  import opened ExprMachine
  import opened ExprTree
  import opened ExprSub
  import opened Strtol

  // ----- reading a value

  datatype Kind = VoidKind | IntegerKind | DoubleKind | StringKind | BadKind

  function Points(text: string): nat {
    if text == "" then 0 else (if text[0] == '.' then 1 else 0) + Points(text[1..])
  }

  /** determine_kind. */
  function KindOf(text: string): Kind {
    if text == "" then VoidKind
    else if text[0] == '"' then StringKind
    else if Points(text) > 1 then BadKind
    else if Points(text) == 1 then DoubleKind
    else IntegerKind
  }

  /** A string loses its first and its last character, whatever the last one is. */
  function Unquoted(text: string): string
    requires text != ""
  {
    if |text| == 1 then "" else text[1..|text| - 1]
  }

  /** Digits in the base their prefix names, if nothing else is left. */
  function ParseMagnitude(text: string): Option<int> {
    var start := PrefixEnd(text);
    var base := PrefixBase(text);
    if DigitRun(text, base, start) == |text| > start then Some(DigitsValue(text[start..], base)) else None
  }

  /** strtoll with base 0; None if it does not reach the end of the text. */
  function ParseLong(text: string): Option<int> {
    match ParseMagnitude(text[SignEnd(text)..])
    case None => None
    case Some(m) => Some(Clamp(if IsNegative(text) then -m else m))
  }

  lemma {:induction false} AllDigits(s: string, i: nat)
    requires i <= |s| && forall k :: i <= k < |s| ==> IsXDigit(s[k])
    ensures DigitRun(s, 16, i) == |s|
    decreases |s| - i
  {
    if i < |s| { AllDigits(s, i + 1); }
  }

  lemma MagnitudeParses(n: nat)
    ensures ParseMagnitude(Magnitude(n)) == Some(n)
  {
    if n == 0 {
      assert DigitRun("0", 8, 1) == 1 && DigitRun("0", 8, 0) == 1;
      assert DigitsValue("0"[..0], 8) == 0 && "0"[0..] == "0";
    } else {
      var text := Magnitude(n);
      HexTextValue(n);
      forall k | 2 <= k < |text| ensures IsXDigit(text[k]) { assert text[k] == HexText(n)[k - 2]; }
      AllDigits(text, 2);
      assert text[2..] == HexText(n);
    }
  }

  /** Reading the printed form of any long restores it, LONG_MIN included. */
  lemma PrintedParses(v: int)
    requires LONG_MIN <= v <= LONG_MAX
    ensures ParseLong(ValueText(v)) == Some(v)
  {
    var text := ValueText(v);
    var m := Magnitude(if v < 0 then -v else v);
    MagnitudeParses(if v < 0 then -v else v);
    assert text == if v < 0 then "-" + m else m;
    assert m != "" && m[0] == '0';
    hide Magnitude, ValueText, ParseMagnitude, SignEnd, IsNegative;
    if v < 0 { MinusSign(text); assert text[1..] == m; } else { NoSign(text); }
  }

  predicate PointAt(text: string, k: int) {
    0 <= k < |text| && text[k] == '.'
  }

  lemma {:induction false} NoPointIff(text: string)
    ensures Points(text) == 0 <==> forall k :: !PointAt(text, k)
  {
    if text != "" {
      NoPointIff(text[1..]);
      assert forall k :: PointAt(text[1..], k) <==> k >= 0 && PointAt(text, k + 1);
      if !(forall k :: !PointAt(text, k)) {
        var k :| PointAt(text, k);
        assert k == 0 || PointAt(text[1..], k - 1);
      }
      if text[0] == '.' { assert PointAt(text, 0); }
    }
  }

  lemma {:induction false} TwoPointsIff(text: string)
    ensures Points(text) > 1 <==> exists i, j :: PointAt(text, i) && PointAt(text, j) && i < j
  {
    if text != "" {
      var rest := text[1..];
      TwoPointsIff(rest);
      NoPointIff(rest);
      assert forall k :: PointAt(rest, k) <==> k >= 0 && PointAt(text, k + 1);
      if Points(text) > 1 {
        if text[0] == '.' {
          var k :| PointAt(rest, k);
          assert PointAt(text, 0) && PointAt(text, k + 1);
        } else {
          var i, j :| PointAt(rest, i) && PointAt(rest, j) && i < j;
          assert PointAt(text, i + 1) && PointAt(text, j + 1);
        }
      } else {
        forall i, j | PointAt(text, i) && PointAt(text, j) ensures !(i < j) {
          if i < j {
            assert PointAt(rest, j - 1);
            if i > 0 { assert PointAt(rest, i - 1); }
          }
        }
      }
    }
  }

  /** Nothing is void, what begins with a quotation mark is a string, and otherwise the points decide. */
  lemma KindOfIs(text: string)
    ensures KindOf(text) == VoidKind <==> text == ""
    ensures KindOf(text) == StringKind <==> text != "" && text[0] == '"'
    ensures KindOf(text) == BadKind <==> text != "" && text[0] != '"' && exists i, j :: PointAt(text, i) && PointAt(text, j) && i < j
    ensures KindOf(text) == IntegerKind <==> text != "" && text[0] != '"' && forall k :: !PointAt(text, k)
  {
    NoPointIff(text);
    TwoPointsIff(text);
  }

  /** An integer is read if its text is spelled to the end with at least one figure. */
  lemma ParseLongIs(text: string) returns (i: nat, j: nat, d: nat, e: nat, base: nat)
    ensures Signed(text, i, j) && Spelled(text[j..], d, e, base)
    ensures ParseLong(text) ==
      if d < e == |text| - j then Some(Saturated(if i < |text| && text[i] == '-' then -Positional(text[j..][d..e], base) else Positional(text[j..][d..e], base)))
      else None
  {
    j := SignEnd(text);
    i := SignSpelled(text);
    d, e, base := ParsedMagnitude(text[j..]);
    hide Signed, Spelled, SignEnd, IsNegative, Positional, ParseMagnitude;
  }

  lemma ParsedMagnitude(rest: string) returns (d: nat, e: nat, base: nat)
    ensures Spelled(rest, d, e, base) && ParseMagnitude(rest) == if d < e == |rest| then Some(Positional(rest[d..e], base)) else None
  {
    d, e, base := MagnitudeSpelled(rest);
    assert rest[d..|rest|] == rest[d..];
    hide Spelled, Positional, DigitRun, PrefixBase, PrefixEnd, DigitsValue;
  }

  /** More than one point, or an integer that does not parse. */
  predicate Malformed(text: string) {
    KindOf(text).BadKind? || (KindOf(text).IntegerKind? && ParseLong(text).None?)
  }

  // ----- variables

  datatype Content = Nothing | Integer(v: int) | Double(text: string) | Text(text: string)

  class Variable {
    const name: string
    var kind: Kind
    var isVoid: bool
    var content: Content
    /** Released, but perhaps still listed. */
    var freed: bool

    constructor (name: string, kind: Kind)
      ensures this.name == name && this.kind == kind && isVoid == kind.VoidKind? && content == Nothing && !freed
    {
      this.name := name;
      this.kind := kind;
      isVoid := kind.VoidKind?;
      content := Nothing;
      freed := false;
    }

    /** What the variable stands for. */
    function Value(): Content
      reads this
    {
      if isVoid then Nothing else content
    }

    /** update_convvar: an integer that does not parse releases the variable. */
    method Update(text: string) returns (failed: bool)
      modifies this`isVoid, this`content, this`freed
      ensures failed == (text != "" && kind.IntegerKind? && ParseLong(text).None?)
      ensures failed ==> freed
      ensures !failed ==> freed == old(freed) && isVoid == (text == "")
      ensures !failed && text != "" ==> content == match kind
        case IntegerKind => Integer(ParseLong(text).value)
        case DoubleKind => Double(text)
        case StringKind => Text(Unquoted(text))
        case _ => old(content)
    {
      failed := false;
      if text == "" {
        isVoid := true;
        return;
      }
      match kind
      case IntegerKind =>
        var v := ParseLong(text);
        if v.None? {
          freed := true;
          return true;
        }
        content := Integer(v.value);
        isVoid := false;
      case DoubleKind => content := Double(text); isVoid := false;
      case StringKind => content := Text(Unquoted(text)); isVoid := false;
      case _ => isVoid := false;
    }
  }

  /** The global list; `created` tells whether it exists yet. */
  class Variables {
    var list: seq<Variable>
    var created: bool
    /** The names of registers. */
    const reserved: set<string>

    constructor (reserved: set<string>)
      ensures Valid() && !created && list == [] && this.reserved == reserved
    {
      list := [];
      created := false;
      this.reserved := reserved;
    }

    ghost predicate Valid()
      reads this, list
    {
      && (!created ==> list == [])
      && (forall i :: 0 <= i < |list| ==> !list[i].freed && list[i].name !in reserved)
      && (forall i, j :: 0 <= i < j < |list| ==> list[i] != list[j] && list[i].name != list[j].name)
    }

    /** Some listed variable has the name and stands for `c`. */
    ghost predicate Holds(name: string, c: Content)
      reads this, list
    {
      exists v :: v in list && v.name == name && v.Value() == c
    }

    ghost predicate Listed(name: string)
      reads this
    {
      exists v :: v in list && v.name == name
    }

    /** lookup_convvar. */
    method Lookup(name: string) returns (v: Variable?)
      requires Valid()
      ensures if v == null then !Listed(name) else v in list && v.name == name
    {
      if !created || name in reserved { return null; }
      var i := 0;
      while i < |list|
        invariant i <= |list| && forall k :: 0 <= k < i ==> list[k].name != name
      {
        if list[i].name == name { return list[i]; }
        i := i + 1;
      }
      return null;
    }

    /** convvar_strval; the "%f" form of a double is its text here. */
    method StrVal(name: string) returns (s: Option<string>)
      requires Valid()
      ensures s.None? <==> !Listed(name)
      ensures forall v: int :: Holds(name, Integer(v)) ==> s == Some(ValueText(v))
      ensures Holds(name, Nothing) ==> s == Some("void")
      ensures forall c: string :: Holds(name, Double(c)) || Holds(name, Text(c)) ==> s == Some(c)
    {
      var target := Lookup(name);
      if target == null { return None; }
      OneHolder(target);
      match target.Value()
      case Nothing => s := Some("void");
      case Integer(v) => s := Some(ValueText(v));
      case Double(text) => s := Some(text);
      case Text(text) => s := Some(text);
    }

    lemma OneHolder(target: Variable)
      requires Valid() && target in list
      ensures forall c :: Holds(target.name, c) ==> c == target.Value()
    {
    }

    /** convvar_exists lets any first name pass: it asks for the '$' only once the list exists. */
    predicate NameRefused(name: string)
      reads this
    {
      name in reserved || (created && (name == "" || name[0] != '$'))
    }

    /** set_convvar. A malformed number fails; if the variable exists, it is released while listed. */
    method Set(name: string, text: string) returns (failed: bool)
      requires Valid()
      modifies this, list
      ensures failed <==> name in reserved || (old(created) && (name == "" || name[0] != '$')) || Malformed(text)
      ensures !failed ==> Valid() && Holds(name, Meant(text))
      ensures forall v :: v in old(list) && (v.name != name || old(NameRefused(name))) ==> v in list && v.Value() == old(v.Value()) && v.freed == old(v.freed)
      ensures Valid() <==> old(NameRefused(name)) || !old(Listed(name)) || !(KindOf(text).IntegerKind? && ParseLong(text).None?)
    {
      if NameRefused(name) { return true; }
      var target := Lookup(name);
      if target == null {
        failed := Create(name, text);
        assert !failed ==> list[|list| - 1] in list && list[|list| - 1].name == name;
      } else {
        target.kind := KindOf(text);
        failed := target.Update(text);
        failed := failed || KindOf(text).BadKind?;
        assert target in list && target.name == name;
      }
    }

    /** create_convvar. */
    method Create(name: string, text: string) returns (failed: bool)
      requires Valid() && name !in reserved && !Listed(name)
      modifies this
      ensures Valid() && (failed <==> Malformed(text))
      ensures failed ==> list == old(list) && created == old(created)
      ensures !failed ==> |list| == |old(list)| + 1 && list[..|old(list)|] == old(list) && fresh(list[|list| - 1])
      ensures !failed ==> list[|list| - 1].name == name && list[|list| - 1].Value() == Meant(text)
    {
      var kind := KindOf(text);
      if kind.BadKind? { return true; }
      var v := new Variable(name, kind);
      failed := v.Update(text);
      if failed { return; }
      created := true;
      list := list + [v];
    }
  }

  /** What a text makes of a variable it is assigned to. */
  function Meant(text: string): Content {
    match KindOf(text)
    case IntegerKind => (match ParseLong(text) case Some(v) => Integer(v) case None => Nothing)
    case DoubleKind => Double(text)
    case StringKind => Text(Unquoted(text))
    case _ => Nothing
  }

  /** A sign, at least one figure, and nothing else. */
  predicate SpelledOut(text: string, i: nat, j: nat, d: nat, e: nat, base: nat) {
    Signed(text, i, j) && Spelled(text[j..], d, e, base) && d < e == |text| - j
  }

  ghost predicate OnePoint(text: string) {
    (exists k :: PointAt(text, k)) && forall i, j :: PointAt(text, i) && PointAt(text, j) ==> i == j
  }

  /** What a text stands for and whether it is refused. */
  lemma MeantIs(text: string) returns (i: nat, j: nat, d: nat, e: nat, base: nat)
    ensures Signed(text, i, j) && Spelled(text[j..], d, e, base)
    ensures if text == "" then Meant(text) == Nothing && !Malformed(text)
      else if text[0] == '"' then Meant(text) == Text(if |text| == 1 then "" else text[1..|text| - 1]) && !Malformed(text)
      else if OnePoint(text) then Meant(text) == Double(text) && !Malformed(text)
      else if (exists k :: PointAt(text, k)) || !SpelledOut(text, i, j, d, e, base) then Meant(text) == Nothing && Malformed(text)
      else
        var v := Positional(text[j..][d..e], base);
        Meant(text) == Integer(Saturated(if i < |text| && text[i] == '-' then -v else v)) && !Malformed(text)
  {
    KindOfIs(text);
    i, j, d, e, base := ParseLongIs(text);
    if OnePoint(text) { NoPointIff(text); TwoPointsIff(text); }
    hide Signed, Spelled, Points, KindOf, Positional, ParseLong, PointAt;
  }

  /** A text in quotation marks stands for what is between them, quotation marks or points included. */
  lemma QuotedIsText(s: string)
    ensures Meant("\"" + s + "\"") == Text(s)
  {
    assert ("\"" + s + "\"")[1..|s| + 1] == s;
  }

  lemma PrintedIsInteger(v: int)
    requires LONG_MIN <= v <= LONG_MAX
    ensures Meant(ValueText(v)) == Integer(v)
  {
    PrintedParses(v);
    PrintedHasNoPoint(v);
  }

  lemma {:induction false} NoPoints(text: string)
    requires forall k :: 0 <= k < |text| ==> text[k] != '.'
    ensures Points(text) == 0
  {
    if text != "" { NoPoints(text[1..]); }
  }

  lemma PrintedHasNoPoint(v: int)
    ensures KindOf(ValueText(v)) == IntegerKind
  {
    assert AllXDigits(HexText(if v < 0 then -v else v));
    NoPoints(ValueText(v));
  }
}
