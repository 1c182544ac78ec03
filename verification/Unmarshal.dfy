/** `json.Unmarshal` into a struct of integers, integer lists and string lists. */
module Unmarshal {
  import opened JsText
  import opened Masks
  import opened Meaning
  import opened Text
  import opened Wrappers

  // ------------------------------------------------------------- string values

  const REPLACEMENT: char := 0xfffd as char

  lemma {:induction false} HexValBelow(d: string)
    requires All(IsHexDigit, d) && |d| <= 4
    ensures HexVal(d) < 16 || |d| > 1
    ensures HexVal(d) < 0x100 || |d| > 2
    ensures HexVal(d) < 0x1000 || |d| > 3
    ensures HexVal(d) < 0x10000
  {
    if d != [] {
      HexValBelow(d[..|d| - 1]);
    }
  }

  /** The code unit of a `\\uXXXX` at the start of the text. */
  function CodeUnit(s: string): (r: Option<nat>)
    ensures r.Some? ==> r.value < 0x10000 && |s| > 5
  {
    if |s| > 5 && s[0] == '\\' && s[1] == 'u' && All(IsHexDigit, s[2..6]) then
      HexValBelow(s[2..6]);
      Some(HexVal(s[2..6]))
    else None
  }

  /** The character that a two-character escape stands for. */
  function Escaped(c: char): char {
    match c
    case 'b' => 8 as char
    case 'f' => 12 as char
    case 'n' => '\n'
    case 'r' => '\r'
    case 't' => '\t'
    case _ => c
  }

  /** What the inside of a string literal means.  Half of a surrogate pair becomes the replacement character. */
  function Unescape(raw: string): string {
    if raw == [] then []
    else if raw[0] != '\\' || |raw| == 1 then [raw[0]] + Unescape(raw[1..])
    else
      match CodeUnit(raw)
      case None => [Escaped(raw[1])] + Unescape(raw[2..])
      case Some(hi) =>
        if hi < 0xd800 || hi >= 0xe000 then [hi as char] + Unescape(raw[6..])
        else
          var lo := CodeUnit(raw[6..]);
          if hi < 0xdc00 && lo.Some? && 0xdc00 <= lo.value < 0xe000 then
            [(0x10000 + (hi - 0xd800) * 0x400 + (lo.value - 0xdc00)) as char] + Unescape(raw[12..])
          else [REPLACEMENT] + Unescape(raw[6..])
  }

  lemma {:induction false} UnescapePlain(s: string)
    requires '\\' !in s
    ensures Unescape(s) == s
  {
    if s != [] {
      UnescapePlain(s[1..]);
      assert s == [s[0]] + s[1..];
    }
  }

  function HexDigitOf(n: nat): (c: char)
    requires n < 16
    ensures IsHexDigit(c) && HexDigitVal(c) == n
  {
    if n < 10 then ('0' as int + n) as char else ('a' as int + n - 10) as char
  }

  /** One way to write a character in a string literal. */
  function QuotedChar(c: char): string {
    if c == '"' || c == '\\' then ['\\', c]
    else if c < ' ' then "\\u00" + [HexDigitOf(c as int / 16), HexDigitOf(c as int % 16)]
    else [c]
  }

  function Spelling(s: string): string {
    if s == [] then [] else QuotedChar(s[0]) + Spelling(s[1..])
  }

  lemma ControlValue(c: char)
    requires c < ' '
    ensures var d := "00" + [HexDigitOf(c as int / 16), HexDigitOf(c as int % 16)];
            |d| == 4 && All(IsHexDigit, d) && HexVal(d) == c as int
  {
    var h, l := HexDigitOf(c as int / 16), HexDigitOf(c as int % 16);
    var d := "00" + [h, l];
    assert d[..3] == "00" + [h] && d[..3][..2] == "00" && "00"[..1] == "0" && "0"[..0] == "";
    assert HexVal("0") == 0 && HexVal("00") == 0;
    assert HexVal(d[..3]) == HexDigitVal(h);
  }

  lemma QuotedCharMeans(c: char, t: string)
    ensures Unescape(QuotedChar(c) + t) == [c] + Unescape(t)
    ensures JsonBody(t) ==> JsonBody(QuotedChar(c) + t)
  {
    var s := QuotedChar(c) + t;
    if c == '"' || c == '\\' {
      assert s[2..] == t && CodeUnit(s) == None;
    } else if c < ' ' {
      ControlMeans(c, t);
    } else {
      assert s[1..] == t;
    }
  }

  lemma ControlMeans(c: char, t: string)
    requires c < ' '
    ensures Unescape(QuotedChar(c) + t) == [c] + Unescape(t)
    ensures JsonBody(t) ==> JsonBody(QuotedChar(c) + t)
  {
    var d := "00" + [HexDigitOf(c as int / 16), HexDigitOf(c as int % 16)];
    var s := QuotedChar(c) + t;
    ControlValue(c);
    assert s == ['\\', 'u'] + d + t;
    hide HexVal, HexDigitOf, QuotedChar;
    assert s[2..6] == d && s[6..] == t;
    assert CodeUnit(s) == Some(c as int);
  }

  lemma EmptySpelling()
    ensures JsonBody([]) && Unescape([]) == []
  {
  }

  /** Every text has a spelling as a string literal. */
  lemma {:induction false} SpellingMeans(s: string)
    ensures JsonBody(Spelling(s)) && Unescape(Spelling(s)) == s
  {
    hide QuotedChar, Unescape, JsonBody;
    if s == [] {
      EmptySpelling();
    } else {
      SpellingMeans(s[1..]);
      QuotedCharMeans(s[0], Spelling(s[1..]));
      assert s == [s[0]] + s[1..];
    }
  }

  // --------------------------------------------------------------- field names

  /** The case folding of field names, as far as it gives ASCII letters: two other characters fold to one. */
  function Fold(c: char): char {
    if 'a' <= c <= 'z' then (c as int - 32) as char
    else if c == 0x17f as char then 'S'
    else if c == 0x212a as char then 'K'
    else c
  }

  function Folded(s: string): (t: string)
    ensures |t| == |s| && forall i :: 0 <= i < |s| ==> t[i] == Fold(s[i])
  {
    seq(|s|, i requires 0 <= i < |s| => Fold(s[i]))
  }

  /** The field that a key names; no two names of a struct fold alike. */
  function FieldIndex(names: seq<string>, key: string): (r: Option<nat>)
    ensures r.Some? ==> r.value < |names| && Folded(names[r.value]) == Folded(key)
  {
    if names == [] then None
    else if Folded(names[|names| - 1]) == Folded(key) then Some(|names| - 1)
    else FieldIndex(names[..|names| - 1], key)
  }

  predicate Distinguishable(names: seq<string>) {
    forall i, j :: 0 <= i < j < |names| ==> Folded(names[i]) != Folded(names[j])
  }

  lemma {:induction false} FieldIndexIs(names: seq<string>, i: nat)
    requires i < |names| && Distinguishable(names)
    ensures FieldIndex(names, names[i]) == Some(i)
  {
    if i < |names| - 1 {
      FieldIndexIs(names[..|names| - 1], i);
    }
  }

  lemma FieldNamed(names: seq<string>, i: nat, name: string)
    requires i < |names| && names[i] == name && Distinguishable(names) && '\\' !in name
    ensures FieldIndex(names, Unescape(name)) == Some(i)
  {
    FieldIndexIs(names, i);
    UnescapePlain(name);
    hide Unescape, FieldIndex;
  }

  // -------------------------------------------------------------------- fields

  /** A list field keeps behind its first `count` elements what earlier lists for it left there. */
  datatype Field =
    | IntField(n: Int64)
    | IntsField(ints: seq<Int64>, count: nat)
    | StrsField(strs: seq<string>, count: nat)

  function IntOf(f: Field): Int64 {
    if f.IntField? then f.n else 0
  }

  function IntsOf(f: Field): seq<Int64> {
    if f.IntsField? && f.count <= |f.ints| then f.ints[..f.count] else []
  }

  function StrsOf(f: Field): seq<string> {
    if f.StrsField? && f.count <= |f.strs| then f.strs[..f.count] else []
  }

  predicate IsNull(v: Value) {
    v == VWord("null")
  }

  predicate IsInt64(v: Value) {
    v.VNum? && -HALF <= v.n < HALF
  }

  /** `null` leaves an element of a list as it is. */
  function IntAt(items: seq<Value>, ints: seq<Int64>, k: nat): Int64 {
    if k < |items| && IsInt64(items[k]) then items[k].n else if k < |ints| then ints[k] else 0
  }

  function StrAt(items: seq<Value>, strs: seq<string>, k: nat): string {
    if k < |items| && items[k].VStr? then Unescape(items[k].raw) else if k < |strs| then strs[k] else ""
  }

  function Longer(m: nat, n: nat): (k: nat)
    ensures k >= m && k >= n && (k == m || k == n)
  {
    if m < n then n else m
  }

  /** One member for the field; `None` if the value is of another type or does not fit. */
  function Assign(f: Field, v: Value): Option<Field> {
    match f
    case IntField(_) =>
      if IsNull(v) then Some(f) else if IsInt64(v) then Some(IntField(v.n)) else None
    case IntsField(ints, _) =>
      if IsNull(v) || v == VArr([]) then Some(IntsField([], 0))
      else if v.VArr? && forall x :: x in v.items ==> IsNull(x) || IsInt64(x) then
        Some(IntsField(seq(Longer(|v.items|, |ints|), k requires 0 <= k => IntAt(v.items, ints, k)), |v.items|))
      else None
    case StrsField(strs, _) =>
      if IsNull(v) || v == VArr([]) then Some(StrsField([], 0))
      else if v.VArr? && forall x :: x in v.items ==> IsNull(x) || x.VStr? then
        Some(StrsField(seq(Longer(|v.items|, |strs|), k requires 0 <= k => StrAt(v.items, strs, k)), |v.items|))
      else None
  }

  /** The members one after the other, those that name no field being passed over. */
  function Decode(names: seq<string>, fields: seq<Field>, ms: seq<(string, Value)>): (r: Option<seq<Field>>)
    requires |fields| == |names|
    ensures r.Some? ==> |r.value| == |names|
  {
    if ms == [] then Some(fields)
    else
      var m := ms[|ms| - 1];
      var before :- Decode(names, fields, ms[..|ms| - 1]);
      match FieldIndex(names, Unescape(m.0))
      case None => Some(before)
      case Some(i) =>
        var f :- Assign(before[i], m.1);
        Some(before[i := f])
  }

  /** `null` leaves a struct as it is. */
  function ReadStruct(names: seq<string>, fields: seq<Field>, v: Value): (r: Option<seq<Field>>)
    requires |fields| == |names|
    ensures r.Some? ==> |r.value| == |names|
  {
    if IsNull(v) then Some(fields) else if v.VObj? then Decode(names, fields, v.members) else None
  }

  /** Unmarshalling into `[]int`. */
  function ReadInts(v: Value): Option<seq<Int64>> {
    var f :- Assign(IntsField([], 0), v);
    Some(IntsOf(f))
  }

  /** Numbers come back as they are. */
  lemma IntsRead(ns: seq<Int64>, vs: seq<Value>)
    requires |vs| == |ns| && forall i :: 0 <= i < |ns| ==> vs[i] == VNum(ns[i])
    ensures Assign(IntsField([], 0), VArr(vs)) == Some(IntsField(ns, |ns|))
    ensures ReadInts(VArr(vs)) == Some(ns)
  {
    var f := Assign(IntsField([], 0), VArr(vs));
    if vs == [] {
      assert ns == [];
    } else {
      assert f.value.ints == ns;
    }
    assert ns[..|ns|] == ns;
  }

  lemma StrsRead(ss: seq<string>, vs: seq<Value>)
    requires |vs| == |ss| && forall i :: 0 <= i < |ss| ==> vs[i].VStr? && Unescape(vs[i].raw) == ss[i]
    ensures Assign(StrsField([], 0), VArr(vs)) == Some(StrsField(ss, |ss|))
  {
    var f := Assign(StrsField([], 0), VArr(vs));
    if vs == [] {
      assert ss == [];
    } else {
      assert f.value.strs == ss;
    }
  }

  /** The object holds `values` for the fields at `index`, each once. */
  ghost predicate Holds(
      names: seq<string>, fields: seq<Field>, ms: seq<(string, Value)>, index: seq<nat>, values: seq<Field>)
    requires |fields| == |names|
  {
    && |index| == |ms| == |values|
    && (forall i :: 0 <= i < |ms| ==>
          && index[i] < |names| && FieldIndex(names, Unescape(ms[i].0)) == Some(index[i])
          && Assign(fields[index[i]], ms[i].1) == Some(values[i]))
    && forall i, j :: 0 <= i < j < |ms| ==> index[i] != index[j]
  }

  lemma {:induction false} DecodesFields(
      names: seq<string>, fields: seq<Field>, ms: seq<(string, Value)>, index: seq<nat>, values: seq<Field>)
    requires |fields| == |names| && Holds(names, fields, ms, index, values)
    ensures Decode(names, fields, ms).Some?
    ensures var r := Decode(names, fields, ms).value;
            && (forall i :: 0 <= i < |ms| ==> r[index[i]] == values[i])
            && (forall k :: 0 <= k < |names| && k !in index ==> r[k] == fields[k])
  {
    hide Assign, FieldIndex, Unescape, Decode;
    if ms == [] {
      DecodesNone(names, fields);
    } else {
      var n := |ms| - 1;
      HoldsBefore(names, fields, ms, index, values);
      DecodesFields(names, fields, ms[..n], index[..n], values[..n]);
      var before := Decode(names, fields, ms[..n]).value;
      assert index[n] !in index[..n];
      DecodesLast(names, fields, ms, before, index[n], values[n]);
      assert index == index[..n] + [index[n]];
    }
  }

  lemma DecodesNone(names: seq<string>, fields: seq<Field>)
    requires |fields| == |names|
    ensures Decode(names, fields, []) == Some(fields)
  {
  }

  lemma HoldsBefore(
      names: seq<string>, fields: seq<Field>, ms: seq<(string, Value)>, index: seq<nat>, values: seq<Field>)
    requires |fields| == |names| && Holds(names, fields, ms, index, values) && ms != []
    ensures var n := |ms| - 1; Holds(names, fields, ms[..n], index[..n], values[..n])
  {
    hide Assign, FieldIndex, Unescape;
  }

  lemma DecodesLast(
      names: seq<string>, fields: seq<Field>, ms: seq<(string, Value)>, before: seq<Field>, i: nat, f: Field)
    requires |fields| == |names| && ms != [] && Decode(names, fields, ms[..|ms| - 1]) == Some(before)
    requires i < |names| && FieldIndex(names, Unescape(ms[|ms| - 1].0)) == Some(i)
    requires Assign(before[i], ms[|ms| - 1].1) == Some(f)
    ensures Decode(names, fields, ms) == Some(before[i := f])
  {
    hide Assign, FieldIndex, Unescape;
  }
}
