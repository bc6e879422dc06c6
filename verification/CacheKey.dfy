/** The compile cache's key: a serialization from which the serialized value can be read back. */
module CacheKey {
  import opened Arith

  /** The values that reach a key. An object is its fields in key order; `undefined` has
      already become `null`. */
  datatype Json =
    | Null
    | Bool(b: bool)
    | Num(n: int)
    | Big(n: int)
    | Str(s: string)
    | Arr(items: seq<Json>)
    | Obj(fields: seq<(string, Json)>)

  // ----- numbers -----

  function Digit(d: nat): char
    requires d < 10
  {
    '0' + d as char
  }

  function Decimal(n: nat): (s: string)
    ensures |s| > 0
  {
    if n < 10 then [Digit(n)] else Decimal(n / 10) + [Digit(n % 10)]
  }

  function Integer(n: int): string {
    if n < 0 then "-" + Decimal(-n) else Decimal(n)
  }

  predicate IsDigit(c: char) {
    '0' <= c <= '9'
  }

  /** Reads the digits at the front, after `seen` has been read. */
  function ReadDigits(s: string, seen: nat): (nat, string) {
    if s == [] || !IsDigit(s[0]) then (seen, s) else ReadDigits(s[1..], 10 * seen + (s[0] as nat - '0' as nat))
  }

  predicate Starts(s: string, c: char) {
    s != [] && s[0] == c
  }

  /** What may follow a number. */
  predicate Delimited(rest: string) {
    rest == [] || (!IsDigit(rest[0]) && rest[0] != 'n')
  }

  function Pow10(n: nat): nat {
    if n == 0 then 1 else 10 * Pow10(n - 1)
  }

  lemma {:induction false} ReadDecimal(n: nat, rest: string, seen: nat)
    requires rest == [] || !IsDigit(rest[0])
    ensures ReadDigits(Decimal(n) + rest, seen) == (seen * Pow10(|Decimal(n)|) + n, rest)
  {
    ReadAhead(n, rest, seen);
    assert ReadDigits(rest, seen * Pow10(|Decimal(n)|) + n) == (seen * Pow10(|Decimal(n)|) + n, rest);
  }

  lemma {:induction false} ReadAhead(n: nat, rest: string, seen: nat)
    ensures ReadDigits(Decimal(n) + rest, seen) == ReadDigits(rest, seen * Pow10(|Decimal(n)|) + n)
  {
    if n < 10 {
      var s := [Digit(n)] + rest;
      assert s[1..] == rest;
      assert Pow10(1) == 10 * Pow10(0);
    } else {
      var tail := [Digit(n % 10)] + rest;
      assert Decimal(n) + rest == Decimal(n / 10) + tail;
      ReadAhead(n / 10, tail, seen);
      var k := |Decimal(n / 10)|;
      assert tail[1..] == rest;
      assert Pow10(k + 1) == 10 * Pow10(k);
      Carry(seen, Pow10(k), n);
    }
  }

  lemma Carry(seen: nat, p: nat, n: nat)
    ensures 10 * (seen * p + n / 10) + n % 10 == seen * (10 * p) + n
  {
  }

  lemma DecimalStarts(n: nat)
    ensures IsDigit(Decimal(n)[0])
  {
    if n >= 10 {
      DecimalStarts(n / 10);
    }
  }

  // ----- strings -----

  function HexDigit(d: nat): char
    requires d < 16
  {
    if d < 10 then '0' + d as char else 'a' + (d - 10) as char
  }

  /** One character inside quotes. */
  function Escape(c: char): string {
    if c == '"' then "\\\""
    else if c == '\\' then "\\\\"
    else if c == '\n' then "\\n"
    else if c == '\r' then "\\r"
    else if c == '\t' then "\\t"
    else if c as nat == 8 then "\\b"
    else if c as nat == 12 then "\\f"
    else if (c as nat) < 32 then "\\u00" + [HexDigit(c as nat / 16), HexDigit(c as nat % 16)]
    else [c]
  }

  function Escaped(s: string): string {
    if s == [] then [] else Escape(s[0]) + Escaped(s[1..])
  }

  function Quoted(s: string): string {
    "\"" + Escaped(s) + "\""
  }

  function FromHex(c: char): nat {
    if IsDigit(c) then c as nat - '0' as nat else if 'a' <= c <= 'f' then c as nat - 'a' as nat + 10 else 0
  }

  /** The first character and what is left, or None at a closing quote or a bad escape. */
  function ReadChar(s: string): (r: Option<(char, string)>)
    ensures r.Some? ==> |r.value.1| < |s|
  {
    if s == [] || s[0] == '"' then None
    else if s[0] != '\\' then Some((s[0], s[1..]))
    else if |s| < 2 then None
    else if s[1] == '"' || s[1] == '\\' then Some((s[1], s[2..]))
    else if s[1] == 'n' then Some(('\n', s[2..]))
    else if s[1] == 'r' then Some(('\r', s[2..]))
    else if s[1] == 't' then Some(('\t', s[2..]))
    else if s[1] == 'b' then Some((8 as char, s[2..]))
    else if s[1] == 'f' then Some((12 as char, s[2..]))
    else if s[1] == 'u' && |s| >= 6 && FromHex(s[4]) < 8 then Some(((16 * FromHex(s[4]) + FromHex(s[5])) as char, s[6..]))
    else None
  }

  /** Reads up to the closing quote. */
  function ReadString(s: string): (string, string)
    decreases |s|
  {
    match ReadChar(s)
    case None => ([], if s == [] then [] else s[1..])
    case Some((c, rest)) => (var (t, rest2) := ReadString(rest); ([c] + t, rest2))
  }

  lemma ReadEscape(c: char, rest: string)
    ensures ReadChar(Escape(c) + rest) == Some((c, rest))
  {
    var e := Escape(c);
    var s := e + rest;
    if |e| == 1 {
      assert s[1..] == rest;
    } else if |e| == 2 {
      assert s[2..] == rest;
    } else {
      assert s[6..] == rest;
      assert s[4] == HexDigit(c as nat / 16) && s[5] == HexDigit(c as nat % 16);
    }
  }

  lemma {:induction false} ReadQuoted(s: string, rest: string)
    ensures ReadString(Escaped(s) + "\"" + rest) == (s, rest)
  {
    if s == [] {
      assert Escaped(s) + "\"" + rest == "\"" + rest;
      assert ("\"" + rest)[1..] == rest;
    } else {
      assert Escaped(s) + "\"" + rest == Escape(s[0]) + (Escaped(s[1..]) + "\"" + rest);
      ReadEscape(s[0], Escaped(s[1..]) + "\"" + rest);
      ReadQuoted(s[1..], rest);
      assert [s[0]] + s[1..] == s;
    }
  }

  // ----- values -----

  function Stringify(v: Json): string {
    match v
    case Null => "null"
    case Bool(b) => if b then "true" else "false"
    case Num(n) => Integer(n)
    case Big(n) => Integer(n) + "n"
    case Str(s) => Quoted(s)
    case Arr(items) => "[" + Items(items) + "]"
    case Obj(fields) => "{" + Fields(fields) + "}"
  }

  function Items(items: seq<Json>): string {
    if items == [] then []
    else if |items| == 1 then Stringify(items[0])
    else Stringify(items[0]) + "," + Items(items[1..])
  }

  function Field(f: (string, Json)): string
  {
    assert f decreases to f.1;
    Quoted(f.0) + ":" + Stringify(f.1)
  }

  function Fields(fields: seq<(string, Json)>): string {
    if fields == [] then []
    else
      assert fields decreases to fields[0];
      if |fields| == 1 then Field(fields[0]) else Field(fields[0]) + "," + Fields(fields[1..])
  }

  /** Reads one value and leaves the rest. */
  function Read(s: string): (r: Option<(Json, string)>)
    ensures r.Some? ==> |r.value.1| < |s|
    decreases |s|, 0
  {
    if s == [] then None
    else if "null" <= s then Some((Null, s[4..]))
    else if "true" <= s then Some((Bool(true), s[4..]))
    else if "false" <= s then Some((Bool(false), s[5..]))
    else if s[0] == '"' then
      var (t, rest) := ReadString(s[1..]);
      if |rest| < |s| then Some((Str(t), rest)) else None
    else if s[0] == '[' then
      if Starts(s[1..], ']') then Some((Arr([]), s[2..]))
      else
        match ReadItems(s[1..])
        case Some((items, rest)) => if Starts(rest, ']') then Some((Arr(items), rest[1..])) else None
        case None => None
    else if s[0] == '{' then
      if Starts(s[1..], '}') then Some((Obj([]), s[2..]))
      else
        match ReadFields(s[1..])
        case Some((fields, rest)) => if Starts(rest, '}') then Some((Obj(fields), rest[1..])) else None
        case None => None
    else
      var sign := if s[0] == '-' then -1 else 1;
      var (n, rest) := ReadDigits(if s[0] == '-' then s[1..] else s, 0);
      if Starts(rest, 'n') then if |rest| <= |s| then Some((Big(sign * n), rest[1..])) else None
      else if |rest| < |s| then Some((Num(sign * n), rest)) else None
  }

  function ReadItems(s: string): (r: Option<(seq<Json>, string)>)
    ensures r.Some? ==> |r.value.1| < |s|
    decreases |s|, 1
  {
    match Read(s)
    case None => None
    case Some((v, rest)) =>
      if !Starts(rest, ',') then Some(([v], rest))
      else
        match ReadItems(rest[1..])
        case Some((vs, rest2)) => Some(([v] + vs, rest2))
        case None => None
  }

  function ReadFields(s: string): (r: Option<(seq<(string, Json)>, string)>)
    ensures r.Some? ==> |r.value.1| < |s|
    decreases |s|, 1
  {
    if !Starts(s, '"') then None
    else
      var (key, rest) := ReadString(s[1..]);
      if !Starts(rest, ':') || |rest| > |s| then None
      else
        match Read(rest[1..])
        case None => None
        case Some((v, rest2)) =>
          if !Starts(rest2, ',') then Some(([(key, v)], rest2))
          else
            match ReadFields(rest2[1..])
            case Some((fs, rest3)) => Some(([(key, v)] + fs, rest3))
            case None => None
  }

  // ----- reading back -----

  /** What `Read` does when a number is in front. */
  function ReadNumber(s: string): Option<(Json, string)>
    requires s != []
  {
    var sign := if s[0] == '-' then -1 else 1;
    var (n, rest) := ReadDigits(if s[0] == '-' then s[1..] else s, 0);
    if Starts(rest, 'n') then if |rest| <= |s| then Some((Big(sign * n), rest[1..])) else None
    else if |rest| < |s| then Some((Num(sign * n), rest)) else None
  }

  lemma NumberInFront(s: string)
    requires s != [] && (s[0] == '-' || IsDigit(s[0]))
    ensures Read(s) == ReadNumber(s)
  {
    assert !("null" <= s) && !("true" <= s) && !("false" <= s);
  }

  function Suffix(big: bool): string {
    if big then "n" else ""
  }

  function NumberOf(n: int, big: bool): Json {
    if big then Big(n) else Num(n)
  }

  /** What remains after the digits says which kind of number it was. */
  lemma KindOfNumber(s: string, sign: int, m: nat, big: bool, rest: string)
    requires s != [] && (big || Delimited(rest)) && sign == (if s[0] == '-' then -1 else 1)
    requires ReadDigits(if s[0] == '-' then s[1..] else s, 0) == (m, Suffix(big) + rest)
    requires |s| > |rest| && (big ==> |s| > |rest| + 1)
    ensures ReadNumber(s) == Some((NumberOf(sign * m, big), rest))
  {
    if big {
      assert ("n" + rest)[1..] == rest;
    } else {
      assert "" + rest == rest;
    }
  }

  lemma ReadUnsigned(m: nat, big: bool, rest: string)
    requires big || Delimited(rest)
    ensures ReadDigits(Decimal(m) + (Suffix(big) + rest), 0) == (m, Suffix(big) + rest)
  {
    var tail := Suffix(big) + rest;
    if big {
      assert tail[0] == 'n';
    } else {
      assert tail == rest;
    }
    ReadDecimal(m, tail, 0);
  }

  lemma ReadInteger(n: int, big: bool, rest: string)
    requires big || Delimited(rest)
    ensures Read(Integer(n) + Suffix(big) + rest) == Some((NumberOf(n, big), rest))
  {
    var m := if n < 0 then -n else n;
    var digits := Decimal(m) + (Suffix(big) + rest);
    var s := Integer(n) + Suffix(big) + rest;
    DecimalStarts(m);
    ReadUnsigned(m, big, rest);
    if n < 0 {
      assert s == "-" + digits && s[1..] == digits;
      NumberInFront(s);
      KindOfNumber(s, -1, m, big, rest);
    } else {
      assert s == digits;
      NumberInFront(s);
      KindOfNumber(s, 1, m, big, rest);
    }
  }

  lemma ReadWord(v: Json, rest: string)
    requires v.Null? || v.Bool?
    ensures Read(Stringify(v) + rest) == Some((v, rest))
  {
    var word, s := Stringify(v), Stringify(v) + rest;
    assert s[..|word|] == word && s[|word|..] == rest && s[0] == word[0];
  }

  lemma ReadText(t: string, rest: string)
    ensures Read(Quoted(t) + rest) == Some((Str(t), rest))
  {
    var s := Quoted(t) + rest;
    assert s[0] == '"' && s[1..] == Escaped(t) + "\"" + rest;
    ReadQuoted(t, rest);
    assert !("null" <= s) && !("true" <= s) && !("false" <= s);
  }

  lemma {:induction false} ReadBack(v: Json, rest: string)
    requires Delimited(rest)
    ensures Read(Stringify(v) + rest) == Some((v, rest))
    decreases v, 1
  {
    match v
    case Null => ReadWord(v, rest);
    case Bool(_) => ReadWord(v, rest);
    case Num(n) =>
      ReadInteger(n, false, rest);
      assert Integer(n) + Suffix(false) == Integer(n);
    case Big(n) => ReadInteger(n, true, rest);
    case Str(t) => ReadText(t, rest);
    case Arr(items) => ReadArray(items, rest);
    case Obj(fields) => ReadObject(fields, rest);
  }

  lemma StringifyStarts(v: Json)
    ensures Stringify(v) != [] && Stringify(v)[0] != ']' && Stringify(v)[0] != ',' && Stringify(v)[0] != '}'
  {
    if v.Num? || v.Big? {
      DecimalStarts(if v.n < 0 then -v.n else v.n);
    }
  }

  lemma {:induction false} ReadArray(items: seq<Json>, rest: string)
    ensures Read("[" + Items(items) + "]" + rest) == Some((Arr(items), rest))
    decreases items, 1
  {
    var s := "[" + Items(items) + "]" + rest;
    if items == [] {
      assert s == "[]" + rest && s[2..] == rest;
    } else {
      assert s[1..] == Items(items) + ("]" + rest);
      StringifyStarts(items[0]);
      ReadBackItems(items, "]" + rest);
      assert ("]" + rest)[1..] == rest;
    }
  }

  lemma {:induction false} ReadBackItems(items: seq<Json>, rest: string)
    requires items != [] && Delimited(rest) && !Starts(rest, ',')
    ensures ReadItems(Items(items) + rest) == Some((items, rest))
    decreases items, 0
  {
    if |items| == 1 {
      ReadBack(items[0], rest);
      assert items == [items[0]];
    } else {
      var tail := "," + (Items(items[1..]) + rest);
      JoinThree(Stringify(items[0]), Items(items[1..]), rest);
      ReadBack(items[0], tail);
      assert tail[1..] == Items(items[1..]) + rest;
      ReadBackItems(items[1..], rest);
      assert [items[0]] + items[1..] == items;
    }
  }

  lemma {:induction false} ReadObject(fields: seq<(string, Json)>, rest: string)
    ensures Read("{" + Fields(fields) + "}" + rest) == Some((Obj(fields), rest))
    decreases fields, 1
  {
    var s := "{" + Fields(fields) + "}" + rest;
    if fields == [] {
      assert s == "{}" + rest && s[2..] == rest;
    } else {
      assert s[1..] == Fields(fields) + ("}" + rest);
      assert s[1] == '"';
      ReadBackFields(fields, "}" + rest);
      assert ("}" + rest)[1..] == rest;
    }
  }

  lemma FieldSpelled(fields: seq<(string, Json)>, rest: string)
    requires fields != []
    ensures var after := if |fields| == 1 then rest else "," + (Fields(fields[1..]) + rest);
            Fields(fields) + rest ==
            "\"" + (Escaped(fields[0].0) + "\"" + (":" + (Stringify(fields[0].1) + after)))
  {
    var after := if |fields| == 1 then rest else "," + (Fields(fields[1..]) + rest);
    if |fields| > 1 {
      JoinThree(Field(fields[0]), Fields(fields[1..]), rest);
    }
    assert Fields(fields) + rest == Field(fields[0]) + after;
    JoinField(Escaped(fields[0].0), Stringify(fields[0].1), after);
  }

  lemma JoinThree(a: string, b: string, c: string)
    ensures a + "," + b + c == a + ("," + (b + c))
  {
  }

  lemma JoinField(key: string, value: string, after: string)
    ensures ("\"" + key + "\"") + ":" + value + after == "\"" + (key + "\"" + (":" + (value + after)))
  {
  }

  /** One field in front: what is left to read is what follows its value. */
  lemma ReadOneField(s: string, key: string, v: Json, after: string)
    requires s == "\"" + (Escaped(key) + "\"" + (":" + (Stringify(v) + after)))
    requires Read(Stringify(v) + after) == Some((v, after))
    ensures ReadFields(s) == if !Starts(after, ',') then Some(([(key, v)], after))
                             else match ReadFields(after[1..])
                                  case Some((fs, rest)) => Some(([(key, v)] + fs, rest))
                                  case None => None
  {
    var value := Stringify(v) + after;
    assert s[1..] == Escaped(key) + "\"" + (":" + value);
    ReadQuoted(key, ":" + value);
    assert (":" + value)[1..] == value;
  }

  lemma {:induction false} ReadBackFields(fields: seq<(string, Json)>, rest: string)
    requires fields != [] && Delimited(rest) && !Starts(rest, ',')
    ensures ReadFields(Fields(fields) + rest) == Some((fields, rest))
    decreases fields, 0
  {
    assert fields decreases to fields[0];
    var (key, v) := fields[0];
    var after := if |fields| == 1 then rest else "," + (Fields(fields[1..]) + rest);
    FieldSpelled(fields, rest);
    ReadBack(v, after);
    ReadOneField(Fields(fields) + rest, key, v, after);
    if |fields| == 1 {
      assert fields == [fields[0]];
    } else {
      ReadBackFields(fields[1..], rest);
      FieldsRejoin(fields, rest);
    }
  }

  lemma FieldsRejoin(fields: seq<(string, Json)>, rest: string)
    requires |fields| > 1
    ensures ("," + (Fields(fields[1..]) + rest))[1..] == Fields(fields[1..]) + rest
    ensures [fields[0]] + fields[1..] == fields
  {
  }

  /** Different values never share a key. */
  lemma StringifyInjective(a: Json, b: Json)
    requires Stringify(a) == Stringify(b)
    ensures a == b
  {
    ReadBack(a, []);
    ReadBack(b, []);
    assert Stringify(a) + [] == Stringify(a) && Stringify(b) + [] == Stringify(b);
  }
}
