/** Canonical JSON for drift hashes: object keys are sorted at every level, so that equal specs print
    alike. That different specs print differently is proved with a parser that inverts the printer.
    Here a string is a sequence of Unicode code points; its byte order is their order. */
module Canonical {
  import opened Wrappers
  import opened Casbin
  import opened KeyOrder

  predicate NumberChar(c: char) {
    '0' <= c <= '9' || c == '-' || c == '+' || c == '.' || c == 'e' || c == 'E'
  }

  /** A number as encoding/json writes it; only its alphabet matters here. */
  predicate IsNumber(t: string) {
    t != "" && (t[0] == '-' || '0' <= t[0] <= '9') && forall c | c in t :: NumberChar(c)
  }

  type Number = t: string | IsNumber(t) witness "0"

  /** `Unprintable` stands for the leaves json.Marshal rejects, such as NaN. */
  datatype Json =
    | Null
    | Bool(b: bool)
    | Num(token: Number)
    | Str(s: string)
    | Arr(items: seq<Json>)
    | Obj(fields: map<string, Json>)
    | Unprintable

  predicate Printable(v: Json) {
    match v
    case Unprintable => false
    case Arr(items) => forall i | 0 <= i < |items| :: Printable(items[i])
    case Obj(fields) => forall k | k in fields :: Printable(fields[k])
    case _ => true
  }

  // ---- printing ----

  function HexDigit(n: nat): char
    requires n < 16
  {
    if n < 10 then '0' + n as char else 'a' + (n - 10) as char
  }

  /** `\uXXXX` for a code point below 0x10000. */
  function UnicodeEscape(c: char): string
    requires c as int < 0x10000
  {
    var n := c as int;
    "\\u" + [HexDigit(n / 16 / 16 / 16), HexDigit(n / 16 / 16 % 16), HexDigit(n / 16 % 16), HexDigit(n % 16)]
  }

  /** The characters json.Marshal replaces by `\uXXXX`. */
  predicate Escaped(c: char) {
    c as int < 0x20 || c == '<' || c == '>' || c == '&' || c as int == 0x2028 || c as int == 0x2029
  }

  function EscapeChar(c: char): (s: string)
    ensures |s| > 0
  {
    if c == '"' then "\\\""
    else if c == '\\' then "\\\\"
    else if c as int == 8 then "\\b"
    else if c as int == 12 then "\\f"
    else if c == '\n' then "\\n"
    else if c == '\r' then "\\r"
    else if c == '\t' then "\\t"
    else if Escaped(c) then UnicodeEscape(c)
    else [c]
  }

  function EscapeAll(s: string): string {
    if s == "" then "" else EscapeChar(s[0]) + EscapeAll(s[1..])
  }

  function Quote(s: string): string {
    "\"" + EscapeAll(s) + "\""
  }

  /** The canonical text of a value. */
  ghost function Print(v: Json): (s: string)
    requires Printable(v)
    decreases v, 1, 0
  {
    match v
    case Null => "null"
    case Bool(b) => if b then "true" else "false"
    case Num(token) => token
    case Str(s) => Quote(s)
    case Arr(items) => "[" + PrintItems(v, 0) + "]"
    case Obj(fields) => "{" + PrintFields(v, SortedKeys(fields.Keys), true) + "}"
  }

  ghost function PrintItems(v: Json, i: nat): (s: string)
    requires v.Arr? && Printable(v) && i <= |v.items|
    decreases v, 0, |v.items| - i
  {
    if i == |v.items| then "" else (if i > 0 then "," else "") + (Print(v.items[i]) + PrintItems(v, i + 1))
  }

  function FieldFrom(quoted: string, value: string, more: string): string {
    quoted + (":" + (value + more))
  }

  ghost function PrintFields(v: Json, keys: seq<string>, first: bool): (s: string)
    requires v.Obj? && Printable(v) && forall k | k in keys :: k in v.fields
    decreases v, 0, |keys|
  {
    if |keys| == 0 then ""
    else (if first then "" else ",") + FieldFrom(Quote(keys[0]), Print(v.fields[keys[0]]), PrintFields(v, keys[1..], false))
  }

  /** canonicalJSON: recursion over the value with a buffer per level. It fails exactly on a value that
      holds an unprintable leaf, and otherwise prints the canonical text whatever the map order. */
  method CanonicalJson(v: Json) returns (r: Option<string>)
    ensures r.Some? <==> Printable(v)
    ensures r.Some? ==> r.value == Print(v)
    decreases v, 1
  {
    match v
    case Obj(_) => r := CanonicalObject(v);
    case Arr(_) => r := CanonicalArray(v);
    case Null => r := Some("null");
    case Bool(b) => r := Some(if b then "true" else "false");
    case Num(token) => r := Some(token);
    case Str(s) => r := Some(Quote(s));
    case Unprintable => r := None;
  }

  method CanonicalObject(v: Json) returns (r: Option<string>)
    requires v.Obj?
    ensures r.Some? <==> Printable(v)
    ensures r.Some? ==> r.value == Print(v)
    decreases v, 0, 2
  {
    var keys := SortKeys(v.fields.Keys);
    assert forall k :: k in keys <==> k in Elements(keys);
    r := AppendFields(v, keys);
    if r.Some? {
      AllFieldsPrinted(v, keys);
    }
  }

  /** The loop over the sorted keys. */
  method AppendFields(v: Json, keys: seq<string>) returns (r: Option<string>)
    requires v.Obj? && forall k | k in keys :: k in v.fields
    ensures r.Some? <==> PrintableUpTo(v.fields, keys, |keys|)
    ensures r.Some? ==> r.value == FieldsUpTo(v.fields, keys, |keys|) + "}"
    decreases v, 0, 1
  {
    var buf := "{";
    for i := 0 to |keys|
      invariant PrintableUpTo(v.fields, keys, i)
      invariant buf == FieldsUpTo(v.fields, keys, i)
    {
      assert keys[i] in keys;
      var next := AppendField(v, keys[i], buf, i > 0);
      if next == None {
        assert !PrintableUpTo(v.fields, keys, |keys|);
        return None;
      }
      NextPrintable(v.fields, keys, i);
      buf := next.value;
    }
    r := Some(buf + "}");
  }

  /** A buffer with one more field. */
  function WithField(buf: string, comma: bool, quoted: string, value: string): string {
    (if comma then buf + "," else buf) + quoted + ":" + value
  }

  method AppendField(v: Json, key: string, buf: string, comma: bool) returns (r: Option<string>)
    requires v.Obj? && key in v.fields
    ensures r.Some? <==> Printable(v.fields[key])
    ensures r.Some? ==> r.value == WithField(buf, comma, Quote(key), Print(v.fields[key]))
    decreases v, 0, 0
  {
    var start := buf;
    if comma {
      start := start + ",";
    }
    start := start + Quote(key) + ":";
    var val := CanonicalJson(v.fields[key]);
    if val == None {
      return None;
    }
    return Some(start + val.value);
  }

  predicate PrintableUpTo(fields: map<string, Json>, keys: seq<string>, i: nat) {
    i <= |keys| && forall j | 0 <= j < i :: keys[j] in fields && Printable(fields[keys[j]])
  }

  lemma {:induction false} NextPrintable(fields: map<string, Json>, keys: seq<string>, i: nat)
    requires PrintableUpTo(fields, keys, i) && i < |keys| && keys[i] in fields && Printable(fields[keys[i]])
    ensures PrintableUpTo(fields, keys, i + 1)
    ensures FieldsUpTo(fields, keys, i + 1) == WithField(FieldsUpTo(fields, keys, i), i > 0, Quote(keys[i]), Print(fields[keys[i]]))
  {
  }

  /** The buffer after the first `i` keys. */
  ghost function FieldsUpTo(fields: map<string, Json>, keys: seq<string>, i: nat): string
    requires PrintableUpTo(fields, keys, i)
  {
    if i == 0 then "{"
    else
      WithField(FieldsUpTo(fields, keys, i - 1), i > 1, Quote(keys[i - 1]), Print(fields[keys[i - 1]]))
  }

  lemma {:induction false} AllFieldsPrinted(v: Json, keys: seq<string>)
    requires v.Obj? && keys == SortedKeys(v.fields.Keys)
    requires forall k | k in v.fields :: k in keys
    requires forall j | 0 <= j < |keys| :: keys[j] in v.fields && Printable(v.fields[keys[j]])
    ensures Printable(v) && FieldsUpTo(v.fields, keys, |keys|) + "}" == Print(v)
  {
    assert forall k | k in v.fields :: Printable(v.fields[k]);
    FieldsSoFar(v, keys, |keys|);
    ObjectDone(v, keys, FieldsUpTo(v.fields, keys, |keys|));
  }

  lemma {:induction false} FieldsSoFar(v: Json, keys: seq<string>, i: nat)
    requires v.Obj? && Printable(v) && i <= |keys| && forall k | k in keys :: k in v.fields
    ensures ObjectSoFar(v, keys, i, FieldsUpTo(v.fields, keys, i))
  {
    if i == 0 {
      assert keys[0..] == keys;
    } else {
      FieldsSoFar(v, keys, i - 1);
      NextField(v, keys, i - 1, FieldsUpTo(v.fields, keys, i - 1));
    }
  }

  ghost predicate ObjectSoFar(v: Json, keys: seq<string>, i: nat, buf: string)
    requires v.Obj? && Printable(v) && i <= |keys| && forall k | k in keys :: k in v.fields
  {
    buf + PrintFields(v, keys[i..], i == 0) == "{" + PrintFields(v, keys, true)
  }

  lemma {:induction false} NextField(v: Json, keys: seq<string>, i: nat, buf: string)
    requires v.Obj? && Printable(v) && i < |keys| && forall k | k in keys :: k in v.fields
    requires ObjectSoFar(v, keys, i, buf)
    ensures ObjectSoFar(v, keys, i + 1, (if i > 0 then buf + "," else buf) + Quote(keys[i]) + ":" + Print(v.fields[keys[i]]))
  {
    var quoted, value, more := Quote(keys[i]), Print(v.fields[keys[i]]), PrintFields(v, keys[i + 1..], false);
    FieldsStep(v, keys, i);
    Append(buf, if i == 0 then "" else ",", quoted, value, more);
    assert i == 0 ==> buf + "" == buf;
  }

  lemma {:induction false} FieldsStep(v: Json, keys: seq<string>, i: nat)
    requires v.Obj? && Printable(v) && i < |keys| && forall k | k in keys :: k in v.fields
    ensures PrintFields(v, keys[i..], i == 0)
            == (if i == 0 then "" else ",") + FieldFrom(Quote(keys[i]), Print(v.fields[keys[i]]), PrintFields(v, keys[i + 1..], false))
  {
    assert keys[i..][1..] == keys[i + 1..];
  }

  lemma {:induction false} Append(buf: string, sep: string, quoted: string, value: string, more: string)
    ensures buf + (sep + FieldFrom(quoted, value, more)) == (buf + sep + quoted + ":" + value) + more
  {
  }

  lemma {:induction false} ObjectDone(v: Json, keys: seq<string>, buf: string)
    requires v.Obj? && Printable(v) && keys == SortedKeys(v.fields.Keys) && forall k | k in keys :: k in v.fields
    requires ObjectSoFar(v, keys, |keys|, buf)
    ensures buf + "}" == Print(v)
  {
    assert keys[|keys|..] == [];
    assert buf + "" == buf;
  }

  method CanonicalArray(v: Json) returns (r: Option<string>)
    requires v.Arr?
    ensures r.Some? <==> Printable(v)
    ensures r.Some? ==> r.value == Print(v)
    decreases v, 0
  {
    var items := v.items;
    var buf := "[";
    for i := 0 to |items|
      invariant forall j | 0 <= j < i :: Printable(items[j])
      invariant Printable(v) ==> buf + PrintItems(v, i) == "[" + PrintItems(v, 0)
    {
      ghost var before := buf;
      if i > 0 {
        buf := buf + ",";
      }
      var elem := CanonicalJson(items[i]);
      if elem == None {
        return None;
      }
      buf := buf + elem.value;
      if Printable(v) {
        NextItem(v, before, i);
      }
    }
    r := Some(buf + "]");
  }

  lemma {:induction false} NextItem(v: Json, buf: string, i: nat)
    requires v.Arr? && Printable(v) && i < |v.items|
    ensures (if i > 0 then buf + "," else buf) + Print(v.items[i]) + PrintItems(v, i + 1) == buf + PrintItems(v, i)
  {
    AppendThree(buf, if i > 0 then "," else "", Print(v.items[i]), PrintItems(v, i + 1));
    assert buf + "" == buf;
  }

  lemma {:induction false} AppendThree(buf: string, a: string, b: string, c: string)
    ensures buf + a + b + c == buf + (a + (b + c))
  {
  }

  // ---- parsing ----

  function HexValue(c: char): (n: int) {
    if '0' <= c <= '9' then c as int - '0' as int
    else if 'a' <= c <= 'f' then c as int - 'a' as int + 10
    else -1
  }

  function ParseHex(s: string): Option<char> {
    if |s| < 4 then None
    else
      var a, b, c, d := HexValue(s[0]), HexValue(s[1]), HexValue(s[2]), HexValue(s[3]);
      if a < 0 || b < 0 || c < 0 || d < 0 then None
      else
        var n := ((a * 16 + b) * 16 + c) * 16 + d;
        if 0 <= n < 0xD800 || 0xE000 <= n < 0x10000 then Some(n as char) else None
  }

  /** One possibly escaped character and what follows it. */
  function ParseChar(s: string): (r: Option<(char, string)>)
    ensures r.Some? ==> |r.value.1| < |s|
  {
    if s == "" || s[0] == '"' then None
    else if s[0] != '\\' then Some((s[0], s[1..]))
    else if |s| < 2 then None
    else if s[1] == '"' || s[1] == '\\' then Some((s[1], s[2..]))
    else if s[1] == 'b' then Some((8 as char, s[2..]))
    else if s[1] == 'f' then Some((12 as char, s[2..]))
    else if s[1] == 'n' then Some(('\n', s[2..]))
    else if s[1] == 'r' then Some(('\r', s[2..]))
    else if s[1] == 't' then Some(('\t', s[2..]))
    else if s[1] != 'u' then None
    else
      var c := ParseHex(s[2..]);
      if c == None then None else Some((c.value, s[6..]))
  }

  /** The rest of a string literal, up to and including its closing quote. */
  function ParseChars(s: string): (r: Option<(string, string)>)
    ensures r.Some? ==> |r.value.1| < |s|
    decreases |s|
  {
    if s == "" then None
    else if s[0] == '"' then Some(("", s[1..]))
    else
      var c := ParseChar(s);
      if c == None then None
      else
        var rest := ParseChars(c.value.1);
        if rest == None then None else Some(([c.value.0] + rest.value.0, rest.value.1))
  }

  /** The longest run of number characters. */
  function NumberRun(s: string): (n: nat)
    ensures n <= |s| && forall i | 0 <= i < n :: NumberChar(s[i])
  {
    if s == "" || !NumberChar(s[0]) then 0 else 1 + NumberRun(s[1..])
  }

  /** A value and what follows it. */
  function ParseValue(s: string): (r: Option<(Json, string)>)
    ensures r.Some? ==> |r.value.1| < |s|
    decreases |s|, 0
  {
    if s == "" then None
    else if s[0] == '"' then
      var text := ParseChars(s[1..]);
      if text == None then None else Some((Str(text.value.0), text.value.1))
    else if s[0] == '[' then
      if |s| > 1 && s[1] == ']' then Some((Arr([]), s[2..]))
      else
        var items := ParseItems(s[1..]);
        if items == None then None else Some((Arr(items.value.0), items.value.1))
    else if s[0] == '{' then
      if |s| > 1 && s[1] == '}' then Some((Obj(map[]), s[2..]))
      else
        var fields := ParseFields(s[1..]);
        if fields == None then None else Some((Obj(fields.value.0), fields.value.1))
    else if "null" <= s then Some((Null, s[4..]))
    else if "true" <= s then Some((Bool(true), s[4..]))
    else if "false" <= s then Some((Bool(false), s[5..]))
    else if s[0] == '-' || '0' <= s[0] <= '9' then
      var n := NumberRun(s);
      Some((Num(s[..n]), s[n..]))
    else None
  }

  /** Items up to and including the closing bracket. */
  function ParseItems(s: string): (r: Option<(seq<Json>, string)>)
    ensures r.Some? ==> |r.value.1| < |s|
    decreases |s|, 1
  {
    var v := ParseValue(s);
    if v == None || v.value.1 == "" then None
    else if v.value.1[0] == ']' then Some(([v.value.0], v.value.1[1..]))
    else if v.value.1[0] != ',' then None
    else
      var rest := ParseItems(v.value.1[1..]);
      if rest == None then None else Some(([v.value.0] + rest.value.0, rest.value.1))
  }

  /** Fields up to and including the closing brace. */
  function ParseFields(s: string): (r: Option<(map<string, Json>, string)>)
    ensures r.Some? ==> |r.value.1| < |s|
    decreases |s|, 1
  {
    if s == "" || s[0] != '"' then None
    else
      var key := ParseChars(s[1..]);
      if key == None || key.value.1 == "" || key.value.1[0] != ':' then None
      else
        var v := ParseValue(key.value.1[1..]);
        if v == None || v.value.1 == "" then None
        else if v.value.1[0] == '}' then Some((map[key.value.0 := v.value.0], v.value.1[1..]))
        else if v.value.1[0] != ',' then None
        else
          var rest := ParseFields(v.value.1[1..]);
          if rest == None then None else Some((rest.value.0[key.value.0 := v.value.0], rest.value.1))
  }

  // ---- the parser inverts the printer ----

  lemma {:induction false} HexRoundTrip(n: nat)
    requires n < 16
    ensures HexValue(HexDigit(n)) == n
  {
  }

  lemma {:induction false} UnicodeRoundTrip(c: char, rest: string)
    requires c as int < 0x10000
    ensures ParseHex(UnicodeEscape(c)[2..] + rest) == Some(c)
  {
    var n := c as int;
    var w, x, y, z := n / 16 / 16 / 16, n / 16 / 16 % 16, n / 16 % 16, n % 16;
    LastNibble(n);
    LastNibble(n / 16);
    LastNibble(n / 16 / 16);
    ParseFour(w, x, y, z, rest, c);
    assert UnicodeEscape(c)[2..] == [HexDigit(w), HexDigit(x), HexDigit(y), HexDigit(z)];
  }

  lemma {:induction false} LastNibble(n: nat)
    ensures n == n / 16 * 16 + n % 16
  {
  }

  lemma {:induction false} ParseFour(w: nat, x: nat, y: nat, z: nat, rest: string, c: char)
    requires w < 16 && x < 16 && y < 16 && z < 16 && c as int == ((w * 16 + x) * 16 + y) * 16 + z
    ensures ParseHex([HexDigit(w), HexDigit(x), HexDigit(y), HexDigit(z)] + rest) == Some(c)
  {
    HexRoundTrip(w);
    HexRoundTrip(x);
    HexRoundTrip(y);
    HexRoundTrip(z);
    var s := [HexDigit(w), HexDigit(x), HexDigit(y), HexDigit(z)] + rest;
    assert s[0] == HexDigit(w) && s[1] == HexDigit(x) && s[2] == HexDigit(y) && s[3] == HexDigit(z);
  }

  lemma {:induction false} CharRoundTrip(c: char, rest: string)
    ensures (EscapeChar(c) + rest)[0] != '"'
    ensures ParseChar(EscapeChar(c) + rest) == Some((c, rest))
  {
    if |EscapeChar(c)| == 6 {
      UnicodeChar(c, rest);
    } else if |EscapeChar(c)| == 2 {
      ShortEscape(c, EscapeChar(c)[1], rest);
    } else {
      assert ([c] + rest)[1..] == rest;
    }
  }

  lemma {:induction false} UnicodeChar(c: char, rest: string)
    requires c as int < 0x10000
    ensures var s := UnicodeEscape(c) + rest; s[0] == '\\' && ParseChar(s) == Some((c, rest))
  {
    var s := UnicodeEscape(c) + rest;
    UnicodeRoundTrip(c, rest);
    assert s[0] == '\\' && s[1] == 'u';
    assert s[2..] == UnicodeEscape(c)[2..] + rest && s[6..] == rest;
  }

  lemma {:induction false} ShortEscape(c: char, e: char, rest: string)
    requires EscapeChar(c) == ['\\', e] && e != 'u'
    ensures ParseChar(['\\', e] + rest) == Some((c, rest))
  {
    var s := ['\\', e] + rest;
    assert s[0] == '\\' && s[1] == e && s[2..] == rest;
  }

  lemma {:induction false} ParseCharsStep(s: string, c: char, tail: string, text: string, rest: string)
    requires s != "" && s[0] != '"' && ParseChar(s) == Some((c, tail)) && ParseChars(tail) == Some((text, rest))
    ensures ParseChars(s) == Some(([c] + text, rest))
  {
  }

  lemma {:induction false} QuoteEnds(rest: string)
    ensures ParseChars("\"" + rest) == Some(("", rest))
  {
    assert ("\"" + rest)[1..] == rest;
  }

  lemma {:induction false} FirstEscaped(text: string, rest: string)
    requires text != ""
    ensures EscapeAll(text) + "\"" + rest == EscapeChar(text[0]) + (EscapeAll(text[1..]) + "\"" + rest)
  {
    Regroup(EscapeChar(text[0]), EscapeAll(text[1..]), "\"", rest);
  }

  lemma {:induction false} CharsRoundTrip(text: string, rest: string)
    ensures ParseChars(EscapeAll(text) + "\"" + rest) == Some((text, rest))
  {
    if text == "" {
      assert EscapeAll(text) + "\"" == "\"";
      QuoteEnds(rest);
    } else {
      var head, tail := EscapeChar(text[0]), EscapeAll(text[1..]) + "\"" + rest;
      FirstEscaped(text, rest);
      CharRoundTrip(text[0], tail);
      CharsRoundTrip(text[1..], rest);
      ParseCharsStep(head + tail, text[0], tail, text[1..], rest);
      assert text == [text[0]] + text[1..];
    }
  }

  /** What may follow a value: the end, or a character no number contains. */
  predicate Ends(rest: string) {
    rest == "" || !NumberChar(rest[0])
  }

  lemma {:induction false} NumberRunStops(token: string, rest: string)
    requires (forall c | c in token :: NumberChar(c)) && Ends(rest)
    ensures NumberRun(token + rest) == |token|
  {
    if token == "" {
      assert token + rest == rest;
    } else {
      assert (token + rest)[1..] == token[1..] + rest && token[0] in token;
      NumberRunStops(token[1..], rest);
    }
  }

  predicate StartsValue(c: char) {
    c == '"' || c == '[' || c == '{' || c == 'n' || c == 't' || c == 'f' || c == '-' || '0' <= c <= '9'
  }

  lemma {:induction false} PrintStarts(v: Json)
    requires Printable(v)
    ensures Print(v) != "" && StartsValue(Print(v)[0])
  {
  }

  /** Parsing a printed value, with anything behind it that can follow a value. */
  lemma {:induction false} ValueRoundTrip(v: Json, rest: string)
    requires Printable(v) && Ends(rest)
    ensures ParseValue(Print(v) + rest) == Some((v, rest))
    decreases v, 2, 0
  {
    match v
    case Obj(_) => ObjectRoundTrip(v, rest);
    case Arr(_) => ArrayRoundTrip(v, rest);
    case _ => LeafRoundTrip(v, rest);
  }

  lemma {:induction false} LeafRoundTrip(v: Json, rest: string)
    requires Printable(v) && Ends(rest) && !v.Obj? && !v.Arr?
    ensures ParseValue(Print(v) + rest) == Some((v, rest))
  {
    var s := Print(v) + rest;
    match v
    case Null => assert s[4..] == rest;
    case Bool(b) => assert s[|Print(v)|..] == rest;
    case Num(token) =>
      NumberRunStops(token, rest);
      assert s[..|token|] == token && s[|token|..] == rest && s[0] == token[0];
    case Str(text) => StringRoundTrip(text, rest);
  }

  lemma {:induction false} StringRoundTrip(text: string, rest: string)
    ensures ParseValue(Quote(text) + rest) == Some((Str(text), rest))
  {
    var s := Quote(text) + rest;
    assert s[1..] == EscapeAll(text) + "\"" + rest;
    CharsRoundTrip(text, rest);
  }

  lemma {:induction false} ParseArray(text: string, items: seq<Json>, rest: string)
    requires text != "" && text[0] != ']' && ParseItems(text) == Some((items, rest))
    ensures ParseValue("[" + text) == Some((Arr(items), rest))
  {
    assert ("[" + text)[1..] == text;
  }

  lemma {:induction false} ParseLastItem(text: string, v: Json, rest: string)
    requires ParseValue(text) == Some((v, "]" + rest))
    ensures ParseItems(text) == Some(([v], rest))
  {
    assert ("]" + rest)[1..] == rest;
  }

  lemma {:induction false} ParseNextItem(text: string, v: Json, tail: string, items: seq<Json>, rest: string)
    requires ParseValue(text) == Some((v, "," + tail)) && ParseItems(tail) == Some((items, rest))
    ensures ParseItems(text) == Some(([v] + items, rest))
  {
    assert ("," + tail)[1..] == tail;
  }

  lemma {:induction false} ArrayRoundTrip(v: Json, rest: string)
    requires v.Arr? && Printable(v) && Ends(rest)
    ensures ParseValue(Print(v) + rest) == Some((v, rest))
    decreases v, 1, 0
  {
    if |v.items| == 0 {
      assert Print(v) + rest == "[]" + rest && ("[]" + rest)[2..] == rest;
    } else {
      ItemsRoundTrip(v, 0, rest);
      FirstItem(v, rest);
      ParseArray(ItemText(v, 0) + "]" + rest, v.items, rest);
      assert v.items[0..] == v.items;
    }
  }

  lemma {:induction false} FirstItem(v: Json, rest: string)
    requires v.Arr? && Printable(v) && |v.items| > 0
    ensures var text := ItemText(v, 0) + "]" + rest;
            text != "" && text[0] != ']' && Print(v) + rest == "[" + text
  {
    PrintStarts(v.items[0]);
    assert "" + ItemText(v, 0) == ItemText(v, 0) == PrintItems(v, 0);
    Enclosed("[", PrintItems(v, 0), "]", rest);
  }

  /** The items from `i` on, without the comma before them. */
  ghost function ItemText(v: Json, i: nat): string
    requires v.Arr? && Printable(v) && i < |v.items|
  {
    Print(v.items[i]) + PrintItems(v, i + 1)
  }

  lemma {:induction false} ItemsRoundTrip(v: Json, i: nat, rest: string)
    requires v.Arr? && Printable(v) && i < |v.items| && Ends(rest)
    ensures ParseItems(ItemText(v, i) + "]" + rest) == Some((v.items[i..], rest))
    decreases v, 0, |v.items| - i
  {
    var after := PrintItems(v, i + 1) + "]" + rest;
    var text := ItemText(v, i) + "]" + rest;
    Regroup(Print(v.items[i]), PrintItems(v, i + 1), "]", rest);
    ItemsAfter(v, i, rest);
    ValueRoundTrip(v.items[i], after);
    assert ParseValue(text) == Some((v.items[i], after));
    HeadOfItems(v.items, i);
    if i + 1 == |v.items| {
      ParseLastItem(text, v.items[i], rest);
    } else {
      ItemsRoundTrip(v, i + 1, rest);
      ParseNextItem(text, v.items[i], ItemText(v, i + 1) + "]" + rest, v.items[i + 1..], rest);
    }
  }

  lemma {:induction false} HeadOfItems(items: seq<Json>, i: nat)
    requires i < |items|
    ensures items[i..] == [items[i]] + items[i + 1..]
    ensures i + 1 == |items| ==> items[i..] == [items[i]]
  {
  }

  lemma {:induction false} Enclosed(open: string, body: string, close: string, rest: string)
    ensures (open + body + close) + rest == open + (body + close + rest)
  {
  }

  lemma {:induction false} Regroup(a: string, b: string, c: string, d: string)
    ensures (a + b) + c + d == a + (b + c + d)
  {
  }

  lemma {:induction false} ItemsAfter(v: Json, i: nat, rest: string)
    requires v.Arr? && Printable(v) && i < |v.items|
    ensures var after := PrintItems(v, i + 1) + "]" + rest;
            Ends(after) && after == if i + 1 == |v.items| then "]" + rest else "," + (ItemText(v, i + 1) + "]" + rest)
  {
    if i + 1 == |v.items| {
      assert "" + "]" + rest == "]" + rest;
    } else {
      assert PrintItems(v, i + 1) == "," + ItemText(v, i + 1);
      CommaShape(ItemText(v, i + 1), "]", rest);
    }
  }

  lemma {:induction false} ParseObject(text: string, fields: map<string, Json>, rest: string)
    requires text != "" && text[0] != '}' && ParseFields(text) == Some((fields, rest))
    ensures ParseValue("{" + text) == Some((Obj(fields), rest))
  {
    assert ("{" + text)[1..] == text;
  }

  lemma {:induction false} ParseLastField(text: string, key: string, body: string, v: Json, rest: string)
    requires ParseChars(text) == Some((key, ":" + body)) && ParseValue(body) == Some((v, "}" + rest))
    ensures ParseFields("\"" + text) == Some((map[key := v], rest))
  {
    assert ("\"" + text)[1..] == text && (":" + body)[1..] == body && ("}" + rest)[1..] == rest;
  }

  lemma {:induction false} ParseNextField(text: string, key: string, body: string, v: Json, tail: string, fields: map<string, Json>, rest: string)
    requires ParseChars(text) == Some((key, ":" + body)) && ParseValue(body) == Some((v, "," + tail))
    requires ParseFields(tail) == Some((fields, rest))
    ensures ParseFields("\"" + text) == Some((fields[key := v], rest))
  {
    assert ("\"" + text)[1..] == text && (":" + body)[1..] == body && ("," + tail)[1..] == tail;
  }

  lemma {:induction false} ObjectRoundTrip(v: Json, rest: string)
    requires v.Obj? && Printable(v) && Ends(rest)
    ensures ParseValue(Print(v) + rest) == Some((v, rest))
    decreases v, 1, 0
  {
    var keys := SortedKeys(v.fields.Keys);
    assert forall k :: k in keys <==> k in Elements(keys);
    if |keys| == 0 {
      assert v.fields == map[];
      assert Print(v) + rest == "{}" + rest && ("{}" + rest)[2..] == rest;
    } else {
      var text := PrintFields(v, keys, true) + "}" + rest;
      FieldsRoundTrip(v, keys, rest);
      FieldText(v, keys, rest);
      Enclosed("{", PrintFields(v, keys, true), "}", rest);
      assert v.fields == Chosen(v.fields, keys);
      ParseObject(text, v.fields, rest);
    }
  }

  function Chosen(fields: map<string, Json>, keys: seq<string>): map<string, Json> {
    map k | k in keys && k in fields :: fields[k]
  }

  lemma {:induction false} FieldsRoundTrip(v: Json, keys: seq<string>, rest: string)
    requires v.Obj? && Printable(v) && Ends(rest) && |keys| > 0 && (forall k | k in keys :: k in v.fields)
    ensures ParseFields(PrintFields(v, keys, true) + "}" + rest) == Some((Chosen(v.fields, keys), rest))
    decreases v, 0, |keys|
  {
    var val := v.fields[keys[0]];
    FieldsAfter(v, keys, rest);
    ValueRoundTrip(val, PrintFields(v, keys[1..], false) + "}" + rest);
    if |keys| == 1 {
      OneField(v, keys, rest);
    } else {
      FieldsRoundTrip(v, keys[1..], rest);
      MoreFields(v, keys, PrintFields(v, keys[1..], true) + "}" + rest, rest);
    }
  }

  lemma {:induction false} OneField(v: Json, keys: seq<string>, rest: string)
    requires v.Obj? && Printable(v) && |keys| == 1 && (forall k | k in keys :: k in v.fields)
    requires PrintFields(v, keys[1..], false) + "}" + rest == "}" + rest
    requires ParseValue(Print(v.fields[keys[0]]) + ("}" + rest)) == Some((v.fields[keys[0]], "}" + rest))
    ensures ParseFields(PrintFields(v, keys, true) + "}" + rest) == Some((Chosen(v.fields, keys), rest))
  {
    var key, val := keys[0], v.fields[keys[0]];
    FieldText(v, keys, rest);
    LastFieldParses(key, Print(val) + ("}" + rest), val, rest);
    ChosenOne(v.fields, keys);
  }

  lemma {:induction false} ChosenOne(fields: map<string, Json>, keys: seq<string>)
    requires |keys| == 1 && keys[0] in fields
    ensures Chosen(fields, keys) == map[keys[0] := fields[keys[0]]]
  {
  }

  lemma {:induction false} MoreFields(v: Json, keys: seq<string>, tail: string, rest: string)
    requires v.Obj? && Printable(v) && |keys| > 1 && (forall k | k in keys :: k in v.fields)
    requires PrintFields(v, keys[1..], false) + "}" + rest == "," + tail
    requires ParseFields(tail) == Some((Chosen(v.fields, keys[1..]), rest))
    requires ParseValue(Print(v.fields[keys[0]]) + ("," + tail)) == Some((v.fields[keys[0]], "," + tail))
    ensures ParseFields(PrintFields(v, keys, true) + "}" + rest) == Some((Chosen(v.fields, keys), rest))
  {
    var key, val := keys[0], v.fields[keys[0]];
    FieldText(v, keys, rest);
    NextFieldParses(key, Print(val) + ("," + tail), val, tail, Chosen(v.fields, keys[1..]), rest);
    ChosenStep(v.fields, keys);
  }

  lemma {:induction false} LastFieldParses(key: string, body: string, v: Json, rest: string)
    requires ParseValue(body) == Some((v, "}" + rest))
    ensures ParseFields("\"" + (EscapeAll(key) + "\"" + (":" + body))) == Some((map[key := v], rest))
  {
    CharsRoundTrip(key, ":" + body);
    ParseLastField(EscapeAll(key) + "\"" + (":" + body), key, body, v, rest);
  }

  lemma {:induction false} NextFieldParses(key: string, body: string, v: Json, tail: string, fields: map<string, Json>, rest: string)
    requires ParseValue(body) == Some((v, "," + tail)) && ParseFields(tail) == Some((fields, rest))
    ensures ParseFields("\"" + (EscapeAll(key) + "\"" + (":" + body))) == Some((fields[key := v], rest))
  {
    CharsRoundTrip(key, ":" + body);
    ParseNextField(EscapeAll(key) + "\"" + (":" + body), key, body, v, tail, fields, rest);
  }

  lemma {:induction false} ChosenStep(fields: map<string, Json>, keys: seq<string>)
    requires |keys| > 0 && keys[0] in fields
    ensures Chosen(fields, keys) == Chosen(fields, keys[1..])[keys[0] := fields[keys[0]]]
  {
    assert keys == [keys[0]] + keys[1..];
  }

  lemma {:induction false} FieldText(v: Json, keys: seq<string>, rest: string)
    requires v.Obj? && Printable(v) && |keys| > 0 && (forall k | k in keys :: k in v.fields)
    ensures var after := PrintFields(v, keys[1..], false) + "}" + rest;
            PrintFields(v, keys, true) + "}" + rest
            == "\"" + (EscapeAll(keys[0]) + "\"" + (":" + (Print(v.fields[keys[0]]) + after)))
  {
    var more := PrintFields(v, keys[1..], false);
    assert PrintFields(v, keys, true) == "" + FieldFrom(Quote(keys[0]), Print(v.fields[keys[0]]), more);
    FieldShape(EscapeAll(keys[0]), Print(v.fields[keys[0]]), more, rest);
  }

  lemma {:induction false} FieldShape(escaped: string, value: string, more: string, rest: string)
    ensures "" + FieldFrom("\"" + escaped + "\"", value, more) + "}" + rest
            == "\"" + (escaped + "\"" + (":" + (value + (more + "}" + rest))))
  {
  }

  lemma {:induction false} FieldsAfter(v: Json, keys: seq<string>, rest: string)
    requires v.Obj? && Printable(v) && |keys| > 0 && (forall k | k in keys :: k in v.fields)
    ensures var after := PrintFields(v, keys[1..], false) + "}" + rest;
            Ends(after) && after == if |keys| == 1 then "}" + rest else "," + (PrintFields(v, keys[1..], true) + "}" + rest)
  {
    if |keys| == 1 {
      assert PrintFields(v, keys[1..], false) == "";
      assert "" + "}" + rest == "}" + rest;
    } else {
      CommaFirst(v, keys[1..]);
      CommaShape(PrintFields(v, keys[1..], true), "}", rest);
    }
  }

  lemma {:induction false} CommaFirst(v: Json, keys: seq<string>)
    requires v.Obj? && Printable(v) && |keys| > 0 && (forall k | k in keys :: k in v.fields)
    ensures PrintFields(v, keys, false) == "," + PrintFields(v, keys, true)
  {
    var field := FieldFrom(Quote(keys[0]), Print(v.fields[keys[0]]), PrintFields(v, keys[1..], false));
    assert "" + field == field;
  }

  lemma {:induction false} CommaShape(body: string, close: string, rest: string)
    ensures "," + body + close + rest == "," + (body + close + rest)
  {
  }

  /** The text of an array: its items' texts in brackets, commas between them, no blanks. */
  lemma {:induction false} ArrayForms(v: Json, w: Json)
    requires Printable(v) && Printable(w)
    ensures Print(Arr([v])) == "[" + Print(v) + "]"
    ensures Print(Arr([v, w])) == "[" + Print(v) + "," + Print(w) + "]"
  {
    LastItem(Arr([v]));
    PairText(Arr([v, w]));
    Spread(Print(v), Print(w));
  }

  lemma {:induction false} PairText(two: Json)
    requires two.Arr? && Printable(two) && |two.items| == 2
    ensures PrintItems(two, 0) == "" + (Print(two.items[0]) + ("," + Print(two.items[1])))
  {
    LastItem(two);
  }

  lemma {:induction false} LastItem(a: Json)
    requires a.Arr? && Printable(a) && |a.items| > 0
    ensures PrintItems(a, |a.items| - 1) == (if |a.items| > 1 then "," else "") + Print(a.items[|a.items| - 1])
  {
    var n := |a.items|;
    assert PrintItems(a, n) == "";
    assert Print(a.items[n - 1]) + "" == Print(a.items[n - 1]);
  }

  lemma {:induction false} Spread(a: string, b: string)
    ensures "[" + ("" + (a + ("," + b))) + "]" == "[" + a + "," + b + "]"
  {
  }

  /** The text of an object with one field: the quoted name, a colon, the value. */
  lemma {:induction false} FieldForm(k: string, v: Json)
    requires Printable(v) && Printable(Obj(map[k := v]))
    ensures Print(Obj(map[k := v])) == "{" + Quote(k) + ":" + Print(v) + "}"
  {
    var one := Obj(map[k := v]);
    assert one.fields.Keys == {k} == Elements([k]);
    SortedIsUnique(SortedKeys(one.fields.Keys), [k]);
    FirstField(one, [k]);
    Braces(Quote(k), Print(v));
  }

  lemma {:induction false} FirstField(v: Json, keys: seq<string>)
    requires v.Obj? && Printable(v) && |keys| == 1 && keys[0] in v.fields
    ensures PrintFields(v, keys, true) == "" + FieldFrom(Quote(keys[0]), Print(v.fields[keys[0]]), "")
  {
    assert PrintFields(v, keys[1..], false) == "";
  }

  lemma {:induction false} Braces(quoted: string, value: string)
    ensures "{" + ("" + FieldFrom(quoted, value, "")) + "}" == "{" + quoted + ":" + value + "}"
  {
  }

  /** The canonical text is unambiguous and order-free: two values print the same exactly when they are
      equal, and parsing the text gives the value back. */
  lemma {:induction false} CanonicalTextIsUnambiguous(v: Json, w: Json)
    requires Printable(v) && Printable(w)
    ensures Print(v) == Print(w) <==> v == w
    ensures ParseValue(Print(v)) == Some((v, ""))
  {
    assert Print(v) + "" == Print(v) && Print(w) + "" == Print(w);
    ValueRoundTrip(v, "");
    ValueRoundTrip(w, "");
  }
}
