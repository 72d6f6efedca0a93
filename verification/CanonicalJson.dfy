/** The canonical JSON printer behind output checksums.

  Values are what a JSON decoder yields: strings are sequences of Unicode scalar values and a
  number is its literal. `Print` is Go's encoding with object keys in byte order; `Parse` is a
  parser written to undo it (objects and strings as in sections 4 and 7 of RFC 8259). */
module CanonicalJson {
  import opened Wrappers
  import opened Ordering

  datatype Value =
    | Null
    | Bool(b: bool)
    | Num(literal: string)
    | Str(text: string)
    | Arr(items: seq<Value>)
    | Obj(fields: map<string, Value>)

  predicate IsNumChar(c: char) {
    '0' <= c <= '9' || c in "+-.eE"
  }

  predicate IsNumber(s: string) {
    s != [] && (s[0] == '-' || '0' <= s[0] <= '9') && forall i :: 0 <= i < |s| ==> IsNumChar(s[i])
  }

  /** Every number in the value is spelled as a number. */
  ghost predicate WellFormed(v: Value) {
    match v
    case Num(l) => IsNumber(l)
    case Arr(items) => forall i :: 0 <= i < |items| ==> WellFormed(items[i])
    case Obj(fields) => forall k :: k in fields ==> WellFormed(fields[k])
    case _ => true
  }

  // ---------------------------------------------------------------- printing

  function Hex(n: nat): char
    requires n < 16
  {
    if n < 10 then ('0' as int + n) as char else ('a' as int + n - 10) as char
  }

  /** One character inside a string literal, with Go's HTML-safe escapes. */
  function Escape(c: char): (r: string)
    ensures r != []
  {
    if c == '"' then "\\\""
    else if c == '\\' then "\\\\"
    else if c == '\n' then "\\n"
    else if c == '\r' then "\\r"
    else if c == '\t' then "\\t"
    else if c == '\U{8}' then "\\b"
    else if c == '\U{c}' then "\\f"
    else if c < ' ' || c == '<' || c == '>' || c == '&' then
      "\\u00" + [Hex(c as int / 16), Hex(c as int % 16)]
    else if c == '\U{2028}' then "\\u2028"
    else if c == '\U{2029}' then "\\u2029"
    else [c]
  }

  function EscapeAll(s: string): string {
    if s == [] then [] else Escape(s[0]) + EscapeAll(s[1..])
  }

  function Quote(s: string): string {
    "\"" + EscapeAll(s) + "\""
  }

  ghost function Print(v: Value): string
    decreases v, 1, 0
  {
    match v
    case Null => "null"
    case Bool(b) => if b then "true" else "false"
    case Num(l) => l
    case Str(s) => Quote(s)
    case Arr(items) => "[" + PrintItems(v, 0) + "]"
    case Obj(fields) => SortedElements(fields.Keys); "{" + PrintMembers(v, Sorted(fields.Keys)) + "}"
  }

  ghost function PrintItems(v: Value, i: nat): string
    requires v.Arr? && i <= |v.items|
    decreases v, 0, |v.items| - i
  {
    if i == |v.items| then []
    else Print(v.items[i]) + (if i + 1 < |v.items| then "," else "") + PrintItems(v, i + 1)
  }

  ghost function PrintMember(v: Value, k: string): string
    requires v.Obj? && k in v.fields
    decreases v, 0, 0
  {
    Quote(k) + ":" + Print(v.fields[k])
  }

  ghost function PrintMembers(v: Value, keys: seq<string>): string
    requires v.Obj? && forall k :: k in keys ==> k in v.fields
    decreases v, 0, |keys|
  {
    if keys == [] then []
    else PrintMember(v, keys[0]) + Separator(keys) + PrintMembers(v, keys[1..])
  }

  function Separator(keys: seq<string>): string {
    if |keys| > 1 then "," else ""
  }

  // ---------------------------------------------------------------- parsing

  function HexValue(c: char): Option<nat> {
    if '0' <= c <= '9' then Some(c as int - '0' as int)
    else if 'a' <= c <= 'f' then Some(c as int - 'a' as int + 10)
    else None
  }

  /** The character of a four-digit escape; only code points below the surrogates are read. */
  function HexChar(s: string): Option<char>
    requires |s| == 4
  {
    match (HexValue(s[0]), HexValue(s[1]), HexValue(s[2]), HexValue(s[3]))
    case (Some(a), Some(b), Some(c), Some(d)) =>
      var n := ((a * 16 + b) * 16 + c) * 16 + d;
      if n < 0xD800 then Some(n as char) else None
    case _ => None
  }

  function Unescape(c: char): Option<char> {
    if c == '"' then Some('"')
    else if c == '\\' then Some('\\')
    else if c == 'n' then Some('\n')
    else if c == 'r' then Some('\r')
    else if c == 't' then Some('\t')
    else if c == 'b' then Some('\U{8}')
    else if c == 'f' then Some('\U{c}')
    else None
  }

  /** One possibly escaped character and what follows it. */
  function ScanChar(s: string): (r: Option<(char, string)>)
    requires s != []
    ensures r.Some? ==> |r.value.1| < |s|
  {
    if s[0] != '\\' then Some((s[0], s[1..]))
    else if |s| < 2 then None
    else if s[1] == 'u' then
      if |s| < 6 then None else
        match HexChar(s[2..6])
        case Some(c) => Some((c, s[6..]))
        case None => None
    else
      match Unescape(s[1])
      case Some(c) => Some((c, s[2..]))
      case None => None
  }

  /** The rest of a string literal after its opening quote. */
  function ScanString(s: string): (r: Option<(string, string)>)
    ensures r.Some? ==> |r.value.1| < |s|
    decreases |s|
  {
    if s == [] then None
    else if s[0] == '"' then Some(("", s[1..]))
    else
      match ScanChar(s)
      case None => None
      case Some((c, rest)) =>
        match ScanString(rest)
        case Some((t, rest')) => Some(([c] + t, rest'))
        case None => None
  }

  function ScanNumber(s: string): (r: (string, string))
    ensures |r.0| + |r.1| == |s|
    ensures s != [] && IsNumChar(s[0]) ==> r.0 != []
  {
    if s == [] || !IsNumChar(s[0]) then ("", s)
    else
      var (n, rest) := ScanNumber(s[1..]);
      ([s[0]] + n, rest)
  }

  ghost function Parse(s: string): (r: Option<(Value, string)>)
    ensures r.Some? ==> |r.value.1| < |s|
    decreases |s|, 1
  {
    if s == [] then None
    else if s[0] == '{' then
      if |s| > 1 && s[1] == '}' then Some((Obj(map[]), s[2..])) else
        match ParseMembers(s[1..])
        case Some((fields, rest)) => Some((Obj(fields), rest))
        case None => None
    else if s[0] == '[' then
      if |s| > 1 && s[1] == ']' then Some((Arr([]), s[2..])) else
        match ParseItems(s[1..])
        case Some((items, rest)) => Some((Arr(items), rest))
        case None => None
    else if s[0] == '"' then
      match ScanString(s[1..])
      case Some((t, rest)) => Some((Str(t), rest))
      case None => None
    else if "null" <= s then Some((Null, s[4..]))
    else if "true" <= s then Some((Bool(true), s[4..]))
    else if "false" <= s then Some((Bool(false), s[5..]))
    else
      var (n, rest) := ScanNumber(s);
      if IsNumber(n) then Some((Num(n), rest)) else None
  }

  /** One or more items, up to and including the closing bracket. */
  ghost function ParseItems(s: string): (r: Option<(seq<Value>, string)>)
    ensures r.Some? ==> |r.value.1| < |s|
    decreases |s|, 2
  {
    match Parse(s)
    case None => None
    case Some((v, rest)) =>
      if rest == [] then None
      else if rest[0] == ']' then Some(([v], rest[1..]))
      else if rest[0] == ',' then
        match ParseItems(rest[1..])
        case Some((vs, rest')) => Some(([v] + vs, rest'))
        case None => None
      else None
  }

  /** One or more members, up to and including the closing brace. */
  ghost function ParseMembers(s: string): (r: Option<(map<string, Value>, string)>)
    ensures r.Some? ==> |r.value.1| < |s|
    decreases |s|, 2
  {
    if s == [] || s[0] != '"' then None else
      match ScanString(s[1..])
      case None => None
      case Some((k, afterKey)) =>
        if afterKey == [] || afterKey[0] != ':' then None else
          match Parse(afterKey[1..])
          case None => None
          case Some((v, rest)) =>
            if rest == [] then None
            else if rest[0] == '}' then Some((map[k := v], rest[1..]))
            else if rest[0] == ',' then
              match ParseMembers(rest[1..])
              case Some((more, rest')) => Some((more[k := v], rest'))
              case None => None
            else None
  }

  // ---------------------------------------------------------------- the parser undoes the printer

  lemma HexRoundTrip(n: nat)
    requires n < 256
    ensures HexChar(['0', '0', Hex(n / 16), Hex(n % 16)]) == Some(n as char)
  {
    assert HexValue(Hex(n / 16)) == Some(n / 16) && HexValue(Hex(n % 16)) == Some(n % 16);
  }

  lemma ScanEscaped(c: char, rest: string)
    ensures Escape(c)[0] != '"'
    ensures ScanChar(Escape(c) + rest) == Some((c, rest))
  {
    var s := Escape(c) + rest;
    if |Escape(c)| == 6 {
      assert s[2..6] == Escape(c)[2..];
      assert s[6..] == rest;
      if c as int < 256 {
        HexRoundTrip(c as int);
        assert Escape(c)[2..] == ['0', '0', Hex(c as int / 16), Hex(c as int % 16)];
      }
    } else {
      assert s[|Escape(c)|..] == rest;
    }
  }

  lemma {:induction false} ScanQuoted(t: string, rest: string)
    ensures ScanString(EscapeAll(t) + "\"" + rest) == Some((t, rest))
  {
    var s := EscapeAll(t) + "\"" + rest;
    if t == [] {
      assert s == ['"'] + rest;
    } else {
      var tail := EscapeAll(t[1..]) + "\"" + rest;
      assert s == Escape(t[0]) + tail;
      ScanEscaped(t[0], tail);
      ScanQuoted(t[1..], rest);
      assert [t[0]] + t[1..] == t;
    }
  }

  /** What may follow a value inside an array or an object, or at the end of the input. */
  predicate Delimited(rest: string) {
    rest == [] || rest[0] == ',' || rest[0] == ']' || rest[0] == '}'
  }

  lemma {:induction false} ScanNumberExact(n: string, rest: string)
    requires (forall i :: 0 <= i < |n| ==> IsNumChar(n[i])) && Delimited(rest)
    ensures ScanNumber(n + rest) == (n, rest)
  {
    if n == [] {
      assert n + rest == rest;
    } else {
      assert (n + rest)[1..] == n[1..] + rest && [n[0]] + n[1..] == n;
      ScanNumberExact(n[1..], rest);
    }
  }

  /** The first character tells the kinds of value apart. */
  lemma FirstChar(v: Value)
    requires WellFormed(v)
    ensures Print(v) != []
    ensures v.Obj? <==> Print(v)[0] == '{'
    ensures v.Arr? <==> Print(v)[0] == '['
    ensures v.Str? <==> Print(v)[0] == '"'
    ensures Print(v)[0] != ']' && Print(v)[0] != '}'
  {}

  lemma WordRoundTrip(v: Value, rest: string)
    requires v.Null? || v.Bool?
    ensures Parse(Print(v) + rest) == Some((v, rest))
  {
    var s := Print(v) + rest;
    assert s[|Print(v)|..] == rest && Print(v) <= s;
  }

  lemma NumRoundTrip(v: Value, rest: string)
    requires v.Num? && WellFormed(v) && Delimited(rest)
    ensures Parse(Print(v) + rest) == Some((v, rest))
  {
    var s := v.literal + rest;
    ScanNumberExact(v.literal, rest);
    assert s[0] == v.literal[0];
    assert s[0] != 'n' && s[0] != 't' && s[0] != 'f' && s[0] != '{' && s[0] != '[' && s[0] != '"';
  }

  lemma StrRoundTrip(v: Value, rest: string)
    requires v.Str?
    ensures Parse(Print(v) + rest) == Some((v, rest))
  {
    var s := Print(v) + rest;
    assert s[0] == '"' && s[1..] == EscapeAll(v.text) + "\"" + rest;
    ScanQuoted(v.text, rest);
  }

  lemma {:induction false} RoundTrip(v: Value, rest: string)
    requires WellFormed(v) && Delimited(rest)
    ensures Parse(Print(v) + rest) == Some((v, rest))
    decreases v, 1, 0
  {
    if v.Arr? {
      ArrRoundTrip(v, rest);
    } else if v.Obj? {
      ObjRoundTrip(v, rest);
    } else if v.Num? {
      NumRoundTrip(v, rest);
    } else if v.Str? {
      StrRoundTrip(v, rest);
    } else {
      WordRoundTrip(v, rest);
    }
  }

  lemma {:induction false} ArrRoundTrip(v: Value, rest: string)
    requires v.Arr? && WellFormed(v)
    ensures Parse(Print(v) + rest) == Some((v, rest))
    decreases v, 0, |v.items| + 1
  {
    var s := Print(v) + rest;
    if v.items == [] {
      assert Print(v) == "[]";
      assert s[2..] == rest;
    } else {
      var body := PrintItems(v, 0) + "]" + rest;
      assert s == "[" + body && s[1..] == body;
      FirstChar(v.items[0]);
      assert body[0] != ']';
      ItemsRoundTrip(v, 0, rest);
      assert v.items[0..] == v.items;
    }
  }

  lemma MembersStart(v: Value, keys: seq<string>)
    requires v.Obj? && keys != [] && forall k :: k in keys ==> k in v.fields
    ensures PrintMembers(v, keys) != [] && PrintMembers(v, keys)[0] == '"'
  {
    assert PrintMember(v, keys[0])[0] == '"';
  }

  lemma ObjParses(body: string, fields: map<string, Value>, rest: string)
    requires body != [] && body[0] != '}' && ParseMembers(body) == Some((fields, rest))
    ensures Parse("{" + body) == Some((Obj(fields), rest))
  {
    assert ("{" + body)[1..] == body;
  }

  lemma EmptyObjParses(v: Value, rest: string)
    requires v.Obj? && v.fields.Keys == {}
    ensures Parse(Print(v) + rest) == Some((v, rest))
  {
    assert v.fields == map[];
    assert Print(v) == "{}";
    assert (Print(v) + rest)[2..] == rest;
  }

  lemma ObjText(v: Value, rest: string)
    requires v.Obj? && forall k :: k in Sorted(v.fields.Keys) ==> k in v.fields
    ensures Print(v) + rest == "{" + (PrintMembers(v, Sorted(v.fields.Keys)) + "}" + rest)
  {}

  lemma RestrictAll(fields: map<string, Value>, keys: seq<string>)
    requires forall k :: k in keys <==> k in fields
    ensures Restrict(fields, keys) == fields
  {}

  lemma {:induction false} ObjRoundTrip(v: Value, rest: string)
    requires v.Obj? && WellFormed(v)
    ensures Parse(Print(v) + rest) == Some((v, rest))
    decreases v, 0, |Sorted(v.fields.Keys)| + 1
  {
    if v.fields.Keys == {} {
      EmptyObjParses(v, rest);
    } else {
      SortedElements(v.fields.Keys);
      var keys := Sorted(v.fields.Keys);
      ObjText(v, rest);
      MembersStart(v, keys);
      MembersRoundTrip(v, keys, rest);
      ObjParses(PrintMembers(v, keys) + "}" + rest, Restrict(v.fields, keys), rest);
      RestrictAll(v.fields, keys);
    }
  }

  lemma LastItemParses(x: Value, text: string, rest: string)
    requires Parse(text) == Some((x, "]" + rest))
    ensures ParseItems(text) == Some(([x], rest))
  {
    assert ("]" + rest)[1..] == rest;
  }

  lemma MoreItemsParse(x: Value, text: string, more: string, items: seq<Value>, rest: string)
    requires Parse(text) == Some((x, "," + more)) && ParseItems(more) == Some((items, rest))
    ensures ParseItems(text) == Some(([x] + items, rest))
  {
    assert ("," + more)[1..] == more;
  }

  lemma RegroupItems(x: string, sep: string, more: string, rest: string)
    ensures x + sep + more + "]" + rest == x + (sep + (more + "]" + rest))
  {}

  lemma LastItemText(v: Value, rest: string)
    requires v.Arr? && v.items != []
    ensures PrintItems(v, |v.items| - 1) + "]" + rest == Print(v.items[|v.items| - 1]) + ("]" + rest)
  {
    RegroupItems(Print(v.items[|v.items| - 1]), "", "", rest);
    assert "" + ("" + "]" + rest) == "]" + rest;
  }

  lemma ItemText(v: Value, i: nat, rest: string)
    requires v.Arr? && i + 1 < |v.items|
    ensures PrintItems(v, i) + "]" + rest == Print(v.items[i]) + ("," + (PrintItems(v, i + 1) + "]" + rest))
  {
    RegroupItems(Print(v.items[i]), ",", PrintItems(v, i + 1), rest);
  }

  lemma LastItem(v: Value, rest: string)
    requires v.Arr? && v.items != []
    requires var x := v.items[|v.items| - 1]; Parse(Print(x) + ("]" + rest)) == Some((x, "]" + rest))
    ensures ParseItems(PrintItems(v, |v.items| - 1) + "]" + rest) == Some(([v.items[|v.items| - 1]], rest))
  {
    var x := v.items[|v.items| - 1];
    LastItemParses(x, Print(x) + ("]" + rest), rest);
    LastItemText(v, rest);
  }

  lemma MoreItems(v: Value, i: nat, more: string, items: seq<Value>, rest: string)
    requires v.Arr? && i + 1 < |v.items| && more == PrintItems(v, i + 1) + "]" + rest
    requires Parse(Print(v.items[i]) + ("," + more)) == Some((v.items[i], "," + more))
    requires ParseItems(more) == Some((items, rest))
    ensures ParseItems(PrintItems(v, i) + "]" + rest) == Some(([v.items[i]] + items, rest))
  {
    MoreItemsParse(v.items[i], Print(v.items[i]) + ("," + more), more, items, rest);
    ItemText(v, i, rest);
  }

  lemma {:induction false} ItemsRoundTrip(v: Value, i: nat, rest: string)
    requires v.Arr? && i < |v.items| && forall j :: i <= j < |v.items| ==> WellFormed(v.items[j])
    ensures ParseItems(PrintItems(v, i) + "]" + rest) == Some((v.items[i..], rest))
    decreases v, 0, |v.items| - i
  {
    var x := v.items[i];
    if i + 1 == |v.items| {
      RoundTrip(x, "]" + rest);
      LastItem(v, rest);
      Slices(v.items, i);
    } else {
      var more := PrintItems(v, i + 1) + "]" + rest;
      RoundTrip(x, "," + more);
      ItemsRoundTrip(v, i + 1, rest);
      MoreItems(v, i, more, v.items[i + 1..], rest);
      Slices(v.items, i);
    }
  }

  lemma Slices<T>(s: seq<T>, i: nat)
    requires i < |s|
    ensures s[i..] == [s[i]] + s[i + 1..]
    ensures i + 1 == |s| ==> s[i..] == [s[i]]
  {}

  function MemberForm'(escaped: string, text: string): string {
    "\"" + (escaped + "\"" + (":" + text))
  }

  function MemberForm(k: string, text: string): string {
    MemberForm'(EscapeAll(k), text)
  }

  lemma Reassociate(key: string, x: string, sep: string, more: string, rest: string)
    ensures "\"" + key + "\"" + ":" + x + sep + more + "}" + rest
         == MemberForm'(key, x + (sep + (more + "}" + rest)))
  {}

  lemma LastText(v: Value, k: string, rest: string)
    requires v.Obj? && k in v.fields
    ensures PrintMembers(v, [k]) + "}" + rest == MemberForm(k, Print(v.fields[k]) + ("}" + rest))
  {
    assert PrintMembers(v, [k]) == PrintMember(v, k) + "" + "";
    Reassociate(EscapeAll(k), Print(v.fields[k]), "", "", rest);
    assert "" + ("" + "}" + rest) == "}" + rest;
  }

  lemma MoreText(v: Value, keys: seq<string>, more: string, rest: string)
    requires v.Obj? && |keys| > 1 && forall k :: k in keys ==> k in v.fields
    requires more == PrintMembers(v, keys[1..])
    ensures PrintMembers(v, keys) + "}" + rest
         == MemberForm(keys[0], Print(v.fields[keys[0]]) + ("," + (more + "}" + rest)))
  {
    Unfold(v, keys);
    Reassociate(EscapeAll(keys[0]), Print(v.fields[keys[0]]), ",", more, rest);
  }

  lemma Unfold(v: Value, keys: seq<string>)
    requires v.Obj? && keys != [] && forall k :: k in keys ==> k in v.fields
    ensures PrintMembers(v, keys) == PrintMember(v, keys[0]) + Separator(keys) + PrintMembers(v, keys[1..])
  {}

  lemma LastMemberParses(k: string, x: Value, text: string, rest: string)
    requires Parse(text) == Some((x, "}" + rest))
    ensures ParseMembers(MemberForm(k, text)) == Some((map[k := x], rest))
  {
    ScanQuoted(k, ":" + text);
    assert MemberForm(k, text)[1..] == EscapeAll(k) + "\"" + (":" + text);
    assert (":" + text)[1..] == text && ("}" + rest)[1..] == rest;
  }

  lemma MoreMembersParse(k: string, x: Value, text: string, more: string, fields: map<string, Value>, rest: string)
    requires Parse(text) == Some((x, "," + more)) && ParseMembers(more) == Some((fields, rest))
    ensures ParseMembers(MemberForm(k, text)) == Some((fields[k := x], rest))
  {
    ScanQuoted(k, ":" + text);
    assert MemberForm(k, text)[1..] == EscapeAll(k) + "\"" + (":" + text);
    assert (":" + text)[1..] == text && ("," + more)[1..] == more;
  }

  function Restrict(fields: map<string, Value>, keys: seq<string>): map<string, Value>
    requires forall k :: k in keys ==> k in fields
  {
    map k | k in keys :: fields[k]
  }

  lemma LastMember(v: Value, keys: seq<string>, rest: string)
    requires v.Obj? && |keys| == 1 && keys[0] in v.fields
    requires var x := v.fields[keys[0]]; Parse(Print(x) + ("}" + rest)) == Some((x, "}" + rest))
    ensures ParseMembers(PrintMembers(v, keys) + "}" + rest) == Some((Restrict(v.fields, keys), rest))
  {
    var k := keys[0];
    assert keys == [k];
    LastMemberParses(k, v.fields[k], Print(v.fields[k]) + ("}" + rest), rest);
    LastText(v, k, rest);
    assert Restrict(v.fields, keys) == map[k := v.fields[k]];
  }

  lemma MoreMembers(v: Value, keys: seq<string>, more: string, rest: string)
    requires v.Obj? && |keys| > 1 && Distinct(keys) && forall k :: k in keys ==> k in v.fields
    requires more == PrintMembers(v, keys[1..]) + "}" + rest
    requires var x := v.fields[keys[0]]; Parse(Print(x) + ("," + more)) == Some((x, "," + more))
    requires ParseMembers(more) == Some((Restrict(v.fields, keys[1..]), rest))
    ensures ParseMembers(PrintMembers(v, keys) + "}" + rest) == Some((Restrict(v.fields, keys), rest))
  {
    var k, x, tail := keys[0], v.fields[keys[0]], "," + more;
    MoreMembersParse(k, x, Print(x) + tail, more, Restrict(v.fields, keys[1..]), rest);
    MoreText(v, keys, PrintMembers(v, keys[1..]), rest);
    RestrictMore(v.fields, keys);
  }

  lemma {:induction false} MembersRoundTrip(v: Value, keys: seq<string>, rest: string)
    requires v.Obj? && WellFormed(v) && keys != [] && Distinct(keys) && forall k :: k in keys ==> k in v.fields
    ensures ParseMembers(PrintMembers(v, keys) + "}" + rest) == Some((Restrict(v.fields, keys), rest))
    decreases v, 0, |keys|
  {
    var x := v.fields[keys[0]];
    if |keys| == 1 {
      RoundTrip(x, "}" + rest);
      LastMember(v, keys, rest);
    } else {
      var more := PrintMembers(v, keys[1..]) + "}" + rest;
      RoundTrip(x, "," + more);
      MembersRoundTrip(v, keys[1..], rest);
      MoreMembers(v, keys, more, rest);
    }
  }

  lemma RestrictMore(fields: map<string, Value>, keys: seq<string>)
    requires keys != [] && Distinct(keys) && forall k :: k in keys ==> k in fields
    ensures Restrict(fields, keys[1..])[keys[0] := fields[keys[0]]] == Restrict(fields, keys)
  {
    forall j ensures j in keys <==> j == keys[0] || j in keys[1..] {
      assert keys == [keys[0]] + keys[1..];
    }
  }

  /** Equal bytes mean equal values, and equal values print to equal bytes. */
  lemma EqualBytesIffEqualValues(a: Value, b: Value)
    requires WellFormed(a) && WellFormed(b)
    ensures Print(a) == Print(b) <==> a == b
  {
    RoundTrip(a, []);
    RoundTrip(b, []);
    assert Print(a) + [] == Print(a) && Print(b) + [] == Print(b);
  }

  // ---------------------------------------------------------------- what the text looks like

  /** Printable, and harmless inside HTML and JavaScript. */
  predicate Harmless(c: char) {
    c >= ' ' && c != '<' && c != '>' && c != '&' && c != '\U{2028}' && c != '\U{2029}'
  }

  predicate AllHarmless(s: string) {
    forall c :: c in s ==> Harmless(c)
  }

  lemma HarmlessConcat(a: string, b: string)
    requires AllHarmless(a) && AllHarmless(b)
    ensures AllHarmless(a + b)
  {}

  lemma EscapeIsHarmless(c: char)
    ensures AllHarmless(Escape(c))
  {}

  lemma {:induction false} EscapedIsHarmless(s: string)
    ensures AllHarmless(EscapeAll(s)) && AllHarmless(Quote(s))
  {
    if s != [] {
      EscapeIsHarmless(s[0]);
      EscapedIsHarmless(s[1..]);
      HarmlessConcat(Escape(s[0]), EscapeAll(s[1..]));
    }
    hide Escape;
  }

  /** Printed text has no control character and none of "<", ">", "&" and the two line separators. */
  lemma {:induction false} PrintIsHarmless(v: Value)
    requires WellFormed(v)
    ensures AllHarmless(Print(v))
    decreases v, 1, 0
  {
    match v {
      case Str(t) => EscapedIsHarmless(t);
      case Arr(items) => ItemsAreHarmless(v, 0);
      case Obj(fields) =>
        SortedElements(fields.Keys);
        MembersAreHarmless(v, Sorted(fields.Keys));
      case _ =>
    }
  }

  lemma {:induction false} ItemsAreHarmless(v: Value, i: nat)
    requires v.Arr? && i <= |v.items| && WellFormed(v)
    ensures AllHarmless(PrintItems(v, i))
    decreases v, 0, |v.items| - i
  {
    if i < |v.items| {
      PrintIsHarmless(v.items[i]);
      ItemsAreHarmless(v, i + 1);
    }
  }

  lemma {:induction false} MembersAreHarmless(v: Value, keys: seq<string>)
    requires v.Obj? && WellFormed(v) && forall k :: k in keys ==> k in v.fields
    ensures AllHarmless(PrintMembers(v, keys))
    decreases v, 0, |keys|
  {
    if keys != [] {
      EscapedIsHarmless(keys[0]);
      PrintIsHarmless(v.fields[keys[0]]);
      MembersAreHarmless(v, keys[1..]);
      hide Print, Quote;
    }
  }

  /** Text that needs no escape is printed as it is. */
  lemma {:induction false} PlainIsVerbatim(s: string)
    requires AllHarmless(s) && '"' !in s && '\\' !in s
    ensures Quote(s) == "\"" + s + "\""
  {
    if s != [] {
      PlainIsVerbatim(s[1..]);
      assert EscapeAll(s[1..]) == s[1..] by {
        assert Quote(s[1..])[1..|Quote(s[1..])| - 1] == EscapeAll(s[1..]);
        assert ("\"" + s[1..] + "\"")[1..|s[1..]| + 1] == s[1..];
      }
      assert Harmless(s[0]) && s[0] != '"' && s[0] != '\\';
      assert [s[0]] + s[1..] == s;
    }
  }

  lemma {:induction false} SameMembers(v: Value, w: Value, keys: seq<string>)
    requires v.Obj? && w.Obj? && forall k :: k in keys ==> k in v.fields && k in w.fields && v.fields[k] == w.fields[k]
    ensures PrintMembers(v, keys) == PrintMembers(w, keys)
  {
    if keys != [] {
      SameMembers(v, w, keys[1..]);
    }
  }

  /** An object's text starts with its least key in byte order, and goes on as the text of the rest. */
  lemma KeysInOrder(fields: map<string, Value>)
    ensures Print(Obj(map[])) == "{}"
    ensures fields != map[] ==>
      var k := Least(fields.Keys);
      Print(Obj(fields)) == "{" + Quote(k) + ":" + Print(fields[k]) + (if |fields| > 1 then "," else "") + Print(Obj(fields - {k}))[1..]
  {
    var none := map[];
    assert Print(Obj(none)) == "{" + PrintMembers(Obj(none), Sorted(none.Keys)) + "}" && Sorted(none.Keys) == [];
    if fields != map[] {
      var k, v := Least(fields.Keys), Obj(fields);
      var rest := fields - {k};
      var keys := Sorted(rest.Keys);
      assert rest.Keys == fields.Keys - {k};
      assert Sorted(fields.Keys) == [k] + keys && ([k] + keys)[1..] == keys;
      SortedElements(fields.Keys);
      SortedElements(rest.Keys);
      SameMembers(v, Obj(rest), keys);
      CountOfRest(fields, k);
      assert keys == [] <==> rest.Keys == {};
      ObjectText(v, [k] + keys);
      ObjectText(Obj(rest), keys);
    }
  }

  lemma CountOfRest(fields: map<string, Value>, k: string)
    requires k in fields
    ensures |fields| > 1 <==> (fields - {k}).Keys != {}
  {
    assert fields.Keys == (fields - {k}).Keys + {k};
    assert |fields| == |fields.Keys|;
  }

  lemma ObjectText(v: Value, keys: seq<string>)
    requires v.Obj? && keys == Sorted(v.fields.Keys) && forall k :: k in keys ==> k in v.fields
    ensures Print(v)[1..] == PrintMembers(v, keys) + "}"
    ensures keys != [] ==>
      Print(v) == "{" + Quote(keys[0]) + ":" + Print(v.fields[keys[0]]) + Separator(keys) + (PrintMembers(v, keys[1..]) + "}")
  {
    assert Print(v) == "{" + PrintMembers(v, keys) + "}";
    hide Quote, Separator, Sorted;
    if keys != [] {
      Unfold(v, keys);
      Regroup("{", Quote(keys[0]), Print(v.fields[keys[0]]), Separator(keys), PrintMembers(v, keys[1..]));
    }
  }

  // ---------------------------------------------------------------- the printer in the source's form

  /** The keys of a map in whatever order the map happens to be iterated. */
  method CollectKeys(fields: map<string, Value>) returns (keys: seq<string>)
    ensures Distinct(keys) && forall k :: k in keys <==> k in fields
  {
    keys := [];
    var left := fields.Keys;
    while left != {}
      invariant left <= fields.Keys && Distinct(keys)
      invariant forall k :: k in keys <==> k in fields.Keys - left
      decreases |left|
    {
      var k :| k in left;
      assert k !in keys;
      keys, left := keys + [k], left - {k};
    }
  }

  /** The canonical bytes of an object: the result depends on the fields alone, not on the order
    in which the map yields them. */
  method CanonicalJson(v: Value) returns (out: string)
    requires v.Obj?
    ensures out == Print(v)
    decreases v, 0
  {
    var keys := CollectKeys(v.fields);
    LexLeIsTotalPreorder();
    var sorted := SortSlice(keys, LexLe);
    SameElements(sorted, keys);
    DistinctPermutation(keys, sorted);
    SortedIsUnique(sorted, v.fields.Keys);
    out := "{";
    for i := 0 to |sorted|
      invariant out + PrintMembers(v, sorted[i..]) == "{" + PrintMembers(v, sorted)
    {
      ghost var before, rest := out, sorted[i..];
      var vb := Marshal(v.fields[sorted[i]]);
      out := out + Quote(sorted[i]) + ":" + vb + Separator(sorted[i..]);
      AppendMember(v, rest, before, out);
      assert rest[1..] == sorted[i + 1..];
    }
    assert sorted[|sorted|..] == [];
    out := out + "}";
  }

  lemma Regroup(before: string, key: string, x: string, sep: string, more: string)
    ensures before + key + ":" + x + sep + more == before + (key + ":" + x + sep + more)
  {}

  lemma AppendMember(v: Value, keys: seq<string>, before: string, after: string)
    requires v.Obj? && keys != [] && forall k :: k in keys ==> k in v.fields
    requires after == before + Quote(keys[0]) + ":" + Print(v.fields[keys[0]]) + Separator(keys)
    ensures after + PrintMembers(v, keys[1..]) == before + PrintMembers(v, keys)
  {
    Unfold(v, keys);
    Regroup(before, Quote(keys[0]), Print(v.fields[keys[0]]), Separator(keys), PrintMembers(v, keys[1..]));
  }

  /** The standard encoder for any value; objects nested anywhere are canonicalised as well. */
  method Marshal(v: Value) returns (out: string)
    ensures out == Print(v)
    decreases v, 1
  {
    match v {
      case Null => out := "null";
      case Bool(b) => out := if b then "true" else "false";
      case Num(l) => out := l;
      case Str(s) => out := Quote(s);
      case Arr(items) =>
        out := "[";
        for i := 0 to |items|
          invariant out + PrintItems(v, i) == "[" + PrintItems(v, 0)
        {
          var item := Marshal(items[i]);
          out := out + item + if i + 1 < |items| then "," else "";
        }
        out := out + "]";
      case Obj(_) => out := CanonicalJson(v);
    }
  }

  // ---------------------------------------------------------------- checksums of outputs

  method ComputeOutputChecksum(output: Value, digest: string -> string) returns (checksum: string)
    requires output.Obj?
    ensures checksum == digest(Print(output))
  {
    var canonical := CanonicalJson(output);
    checksum := digest(canonical);
  }

  /** Equal outputs have equal checksums; unequal checksums never come from equal outputs, and
    equal ones come from unequal outputs only through two distinct messages with one digest. */
  lemma ChecksumMeaning(a: Value, b: Value, digest: string -> string)
    requires WellFormed(a) && WellFormed(b)
    ensures a == b ==> digest(Print(a)) == digest(Print(b))
    ensures a != b && digest(Print(a)) == digest(Print(b)) ==>
              exists x, y :: x != y && digest(x) == digest(y)
  {
    EqualBytesIffEqualValues(a, b);
  }
}
