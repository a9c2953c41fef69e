/**
  Stand-ins for the JavaScript built-ins that the servers and scripts rely on:
  JSON values and truthiness, String.prototype.trim, parseInt, String.prototype.split,
  the decimal rendering of a number, and the `body += chunk` accumulation of a request body.
 */
module JsRuntime {

  datatype Option<T> = None | Some(value: T)

  /** The outcome of a check that either passes a value on or rejects with a message. */
  datatype Result<T> = Ok(value: T) | Err(message: string)

  /**
    A value as JSON.parse or querystring.parse builds it. Numbers are integers here;
    an object is a map from its keys to its values (key order is not modelled).
   */
  datatype Value =
    | Null
    | Bool(b: bool)
    | Num(n: int)
    | Str(s: string)
    | Arr(items: seq<Value>)
    | Obj(fields: map<string, Value>)

  /** JavaScript truthiness; a missing property (`undefined`) is falsy as well. */
  predicate Truthy(v: Value) {
    match v
    case Null => false
    case Bool(b) => b
    case Num(n) => n != 0
    case Str(s) => s != ""
    case Arr(_) => true
    case Obj(_) => true
  }

  /**
    Property lookup `v[key]` on a value that is not null: only objects have own
    properties a JSON document can set; `None` stands for `undefined`.
   */
  function Property(v: Value, key: string): (r: Option<Value>)
    requires !v.Null?
    ensures r.Some? <==> v.Obj? && key in v.fields
    ensures r.Some? ==> r.value == v.fields[key]
  {
    if v.Obj? && key in v.fields then Some(v.fields[key]) else None
  }

  // ---------------------------------------------------------------------------
  // Whitespace and trim
  // ---------------------------------------------------------------------------

  /** The ECMAScript WhiteSpace and LineTerminator characters, which trim and parseInt skip. */
  predicate IsJsSpace(c: char) {
    c == '\t' || c == '\n' || c == '\U{000B}' || c == '\U{000C}' || c == '\r' || c == ' ' ||
    c == '\U{00A0}' || c == '\U{1680}' || ('\U{2000}' <= c <= '\U{200A}') ||
    c == '\U{2028}' || c == '\U{2029}' || c == '\U{202F}' || c == '\U{205F}' ||
    c == '\U{3000}' || c == '\U{FEFF}'
  }

  /** Every character is whitespace (the empty string included). */
  predicate IsBlank(s: string) {
    forall i :: 0 <= i < |s| ==> IsJsSpace(s[i])
  }

  /** String.prototype.trimStart. */
  function TrimStart(s: string): (r: string)
    ensures |r| <= |s| && r == s[|s| - |r|..]
    ensures r == [] || !IsJsSpace(r[0])
    ensures IsBlank(s[..|s| - |r|])
  {
    if s != [] && IsJsSpace(s[0]) then
      var r := TrimStart(s[1..]);
      assert s[..|s| - |r|] == [s[0]] + s[1..][..|s| - 1 - |r|];
      BlankCons(s[0], s[1..][..|s| - 1 - |r|]);
      r
    else s
  }

  /** String.prototype.trimEnd. */
  function TrimEnd(s: string): (r: string)
    ensures |r| <= |s| && r == s[..|r|]
    ensures r == [] || !IsJsSpace(r[|r| - 1])
    ensures IsBlank(s[|r|..])
  {
    if s != [] && IsJsSpace(s[|s| - 1]) then
      var r := TrimEnd(s[..|s| - 1]);
      assert s[..|s| - 1][|r|..] + [s[|s| - 1]] == s[|r|..];
      BlankSnoc(s[..|s| - 1][|r|..], s[|s| - 1]);
      r
    else s
  }

  lemma BlankCons(c: char, x: string)
    requires IsJsSpace(c) && IsBlank(x)
    ensures IsBlank([c] + x)
  {
    assert forall i :: 1 <= i < |x| + 1 ==> ([c] + x)[i] == x[i - 1];
  }

  lemma BlankSnoc(x: string, c: char)
    requires IsBlank(x) && IsJsSpace(c)
    ensures IsBlank(x + [c])
  {
    assert forall i :: 0 <= i < |x| ==> (x + [c])[i] == x[i];
  }

  /** String.prototype.trim: whitespace is taken off both ends. */
  function Trim(s: string): (r: string)
    ensures |r| <= |s|
    ensures r == [] || (!IsJsSpace(r[0]) && !IsJsSpace(r[|r| - 1]))
  {
    var t := TrimStart(s);
    var r := TrimEnd(t);
    assert r != [] ==> r[0] == t[0];
    r
  }

  /** `!body.trim()` holds exactly when the body consists of whitespace only. */
  lemma TrimEmptyIffBlank(s: string)
    ensures Trim(s) == [] <==> IsBlank(s)
  {
    var t := TrimStart(s);
    var e := TrimEnd(t);
    assert s[..|s| - |t|] + t == s;
    if e == [] {
      assert t[|e|..] == t;
      assert t == [];
      assert s[..|s| - |t|] == s;
    } else {
      assert t != [] && s[|s| - |t|] == t[0];
    }
  }

  // ---------------------------------------------------------------------------
  // parseInt
  // ---------------------------------------------------------------------------

  /**
    The digit value of an ASCII letter or digit (0-9, then a/A = 10 ... z/Z = 35);
    36 for every other character, so that it is a digit in no radix.
   */
  function CharValue(c: char): (v: nat)
    ensures v <= 36
  {
    if '0' <= c <= '9' then (c as int) - ('0' as int)
    else if 'a' <= c <= 'z' then (c as int) - ('a' as int) + 10
    else if 'A' <= c <= 'Z' then (c as int) - ('A' as int) + 10
    else 36
  }

  predicate IsDigit(c: char) {
    '0' <= c <= '9'
  }

  /** The longest prefix of `s` made of digits of the given radix. */
  function LeadingDigits(s: string, radix: nat): (ds: string)
    ensures ds <= s
    ensures forall i :: 0 <= i < |ds| ==> CharValue(ds[i]) < radix
    ensures |ds| < |s| ==> CharValue(s[|ds|]) >= radix
  {
    if s != [] && CharValue(s[0]) < radix then [s[0]] + LeadingDigits(s[1..], radix) else []
  }

  /** The number a string of digits denotes in the given radix, most significant digit first. */
  function DigitsValue(ds: string, radix: nat): nat {
    if ds == [] then 0 else DigitsValue(ds[..|ds| - 1], radix) * radix + CharValue(ds[|ds| - 1])
  }

  /**
    parseInt(s) with no radix argument: leading whitespace is skipped, one optional
    sign is read, a "0x"/"0X" prefix selects radix 16 (otherwise radix 10), and the
    longest run of digits that follows is converted. No digit at all is NaN, here `None`.
   */
  function ParseInt(s: string): (r: Option<int>)
    ensures TrimStart(s) == [] ==> r == None
    ensures r.Some? && r.value < 0 ==> TrimStart(s)[0] == '-'
  {
    var t := TrimStart(s);
    if t != [] && t[0] == '-' then
      match ParseUnsigned(t[1..])
      case None => None
      case Some(v) => Some(-v)
    else if t != [] && t[0] == '+' then ParseUnsigned(t[1..])
    else ParseUnsigned(t)
  }

  /** The part of parseInt after the sign: the radix prefix and the run of digits. */
  function ParseUnsigned(u: string): (r: Option<int>)
    ensures r.Some? ==> r.value >= 0
  {
    var hex := |u| >= 2 && u[0] == '0' && (u[1] == 'x' || u[1] == 'X');
    var radix := if hex then 16 else 10;
    var ds := LeadingDigits(if hex then u[2..] else u, radix);
    if ds == [] then None else Some(DigitsValue(ds, radix))
  }

  /** A string that starts with neither whitespace, a sign nor a decimal digit is NaN. */
  lemma ParseIntNoDigits(s: string)
    requires s == [] || (CharValue(s[0]) >= 10 && !IsJsSpace(s[0]) && s[0] != '-' && s[0] != '+')
    ensures ParseInt(s) == None
  {
    assert TrimStart(s) == s;
  }

  /** String(n) for a natural number: its decimal digits without leading zeros. */
  function Decimal(n: nat): (s: string)
    ensures s != []
    ensures forall i :: 0 <= i < |s| ==> IsDigit(s[i])
    ensures s[0] == '0' <==> n == 0
  {
    var d := ['0' + (n % 10) as char];
    if n < 10 then d else Decimal(n / 10) + d
  }

  /** The digits Decimal writes are read back as the same number. */
  lemma {:induction false} DecimalValue(n: nat)
    ensures DigitsValue(Decimal(n), 10) == n
  {
    var s := Decimal(n);
    assert CharValue(s[|s| - 1]) == n % 10;
    if n >= 10 {
      assert s[..|s| - 1] == Decimal(n / 10);
      DecimalValue(n / 10);
    } else {
      assert s[..|s| - 1] == [];
    }
  }

  /** A run of radix digits followed by something that is not one is exactly the leading run. */
  lemma {:induction false} LeadingDigitsOfRun(ds: string, rest: string, radix: nat)
    requires forall i :: 0 <= i < |ds| ==> CharValue(ds[i]) < radix
    requires rest == [] || CharValue(rest[0]) >= radix
    ensures LeadingDigits(ds + rest, radix) == ds
  {
    if ds != [] {
      assert (ds + rest)[1..] == ds[1..] + rest;
      LeadingDigitsOfRun(ds[1..], rest, radix);
    } else {
      assert ds + rest == rest;
    }
  }

  /**
    Round trip: parseInt reads back the decimal rendering of a natural number, whatever
    follows it, as long as that does not continue the number or (after a lone 0) form a hex prefix.
   */
  lemma ParseIntDecimal(n: nat, suffix: string)
    requires suffix == [] || !(IsDigit(suffix[0]) || suffix[0] == 'x' || suffix[0] == 'X')
    ensures ParseInt(Decimal(n) + suffix) == Some(n)
  {
    var d := Decimal(n);
    var s := d + suffix;
    assert s[0] == d[0];
    assert IsDigit(s[0]);
    assert !IsJsSpace(s[0]) && s[0] != '-' && s[0] != '+';
    assert TrimStart(s) == s;
    ParseUnsignedDecimal(n, suffix);
    assert ParseInt(s) == ParseUnsigned(s);
  }

  lemma ParseUnsignedDecimal(n: nat, suffix: string)
    requires suffix == [] || !(IsDigit(suffix[0]) || suffix[0] == 'x' || suffix[0] == 'X')
    ensures ParseUnsigned(Decimal(n) + suffix) == Some(n)
  {
    var d := Decimal(n);
    var s := d + suffix;
    assert suffix != [] ==> CharValue(suffix[0]) >= 10;
    LeadingDigitsOfRun(d, suffix, 10);
    DecimalValue(n);
    if |s| >= 2 && s[0] == '0' {
      assert n == 0;
      assert s[1] == suffix[0];
    }
  }

  /** A text that does not start with whitespace is its own trimStart. */
  lemma TrimStartNoSpace(s: string)
    requires s == [] || !IsJsSpace(s[0])
    ensures TrimStart(s) == s
  {
  }

  /** With no whitespace or sign in front, parseInt is the unsigned reading. */
  lemma ParseIntUnsigned(u: string)
    requires u == [] || (!IsJsSpace(u[0]) && u[0] != '-' && u[0] != '+')
    ensures ParseInt(u) == ParseUnsigned(u)
  {
    assert TrimStart(u) == u;
  }

  /** One sign is read: '-' negates the unsigned reading, '+' leaves it as it is. */
  lemma ParseIntSign(u: string)
    ensures ParseInt("-" + u) == (if ParseUnsigned(u).Some? then Some(-ParseUnsigned(u).value) else None)
    ensures ParseInt("+" + u) == ParseUnsigned(u)
  {
    ParseIntMinus(u);
    ParseIntPlus(u);
  }

  lemma ParseIntMinus(u: string)
    ensures ParseInt("-" + u) == (if ParseUnsigned(u).Some? then Some(-ParseUnsigned(u).value) else None)
  {
    var t := "-" + u;
    assert t[0] == '-';
    TrimStartNoSpace(t);
    assert t[1..] == u;
  }

  lemma ParseIntPlus(u: string)
    ensures ParseInt("+" + u) == ParseUnsigned(u)
  {
    var t := "+" + u;
    assert t[0] == '+';
    TrimStartNoSpace(t);
    assert t[1..] == u;
  }

  /**
    A run of decimal digits, leading zeros allowed, followed by anything that neither
    continues it nor (after a lone 0) forms a hex prefix, is read in radix 10.
   */
  lemma ParseUnsignedDigits(ds: string, suffix: string)
    requires ds != [] && forall i :: 0 <= i < |ds| ==> IsDigit(ds[i])
    requires suffix == [] || !(IsDigit(suffix[0]) || suffix[0] == 'x' || suffix[0] == 'X')
    ensures ParseUnsigned(ds + suffix) == Some(DigitsValue(ds, 10))
  {
    var u := ds + suffix;
    assert forall i :: 0 <= i < |ds| ==> CharValue(ds[i]) < 10;
    assert suffix != [] ==> CharValue(suffix[0]) >= 10;
    LeadingDigitsOfRun(ds, suffix, 10);
    assert |u| >= 2 ==> u[1] == if |ds| >= 2 then ds[1] else suffix[0];
    assert !(|u| >= 2 && u[0] == '0' && (u[1] == 'x' || u[1] == 'X'));
  }

  /**
    After "0x" or "0X" the longest run of hex digits is read in radix 16; when no hex digit
    follows the prefix the result is NaN.
   */
  lemma ParseUnsignedHex(x: char, ds: string, suffix: string)
    requires x == 'x' || x == 'X'
    requires forall i :: 0 <= i < |ds| ==> CharValue(ds[i]) < 16
    requires suffix == [] || CharValue(suffix[0]) >= 16
    ensures ParseUnsigned(['0', x] + ds + suffix) == (if ds == [] then None else Some(DigitsValue(ds, 16)))
  {
    var u := ['0', x] + ds + suffix;
    DropPrefix(['0', x], ds, suffix);
    LeadingDigitsOfRun(ds, suffix, 16);
    ParseUnsignedHexPrefix(u);
  }

  lemma DropPrefix(p: string, ds: string, suffix: string)
    ensures (p + ds + suffix)[|p|..] == ds + suffix
  {
    var u := p + ds + suffix;
    assert |u[|p|..]| == |ds + suffix|;
    forall i | 0 <= i < |ds + suffix|
      ensures u[|p|..][i] == (ds + suffix)[i]
    {
      if i < |ds| {
        assert u[|p| + i] == ds[i];
      } else {
        assert u[|p| + i] == suffix[i - |ds|];
      }
    }
  }

  lemma ParseUnsignedHexPrefix(u: string)
    requires |u| >= 2 && u[0] == '0' && (u[1] == 'x' || u[1] == 'X')
    ensures var ds := LeadingDigits(u[2..], 16); ParseUnsigned(u) == if ds == [] then None else Some(DigitsValue(ds, 16))
  {
  }

  /** parseInt of a run of decimal digits, leading zeros allowed, and whatever does not continue it. */
  lemma ParseIntDigits(ds: string, suffix: string)
    requires ds != [] && forall i :: 0 <= i < |ds| ==> IsDigit(ds[i])
    requires suffix == [] || !(IsDigit(suffix[0]) || suffix[0] == 'x' || suffix[0] == 'X')
    ensures ParseInt(ds + suffix) == Some(DigitsValue(ds, 10))
  {
    assert (ds + suffix)[0] == ds[0];
    ParseIntUnsigned(ds + suffix);
    ParseUnsignedDigits(ds, suffix);
  }

  /** parseInt reads back a signed decimal rendering: `-n` is -n and `+n` is n. */
  lemma ParseIntSignedDecimal(n: nat, suffix: string)
    requires suffix == [] || !(IsDigit(suffix[0]) || suffix[0] == 'x' || suffix[0] == 'X')
    ensures ParseInt("-" + (Decimal(n) + suffix)) == Some(-(n as int))
    ensures ParseInt("+" + (Decimal(n) + suffix)) == Some(n)
  {
    ParseUnsignedDecimal(n, suffix);
    ParseIntMinus(Decimal(n) + suffix);
    ParseIntPlus(Decimal(n) + suffix);
  }

  /** parseInt of "0x" and a run of hex digits; NaN when no hex digit follows the prefix. */
  lemma ParseIntHex(ds: string, suffix: string)
    requires forall i :: 0 <= i < |ds| ==> CharValue(ds[i]) < 16
    requires suffix == [] || CharValue(suffix[0]) >= 16
    ensures ParseInt("0x" + ds + suffix) == if ds == [] then None else Some(DigitsValue(ds, 16))
  {
    var u := "0x" + ds + suffix;
    assert u[0] == '0';
    ParseIntUnsigned(u);
    ParseUnsignedHex('x', ds, suffix);
  }

  /** Leading zeros do not change the value of a digit string. */
  lemma {:induction false} LeadingZero(ds: string, radix: nat)
    ensures DigitsValue(['0'] + ds, radix) == DigitsValue(ds, radix)
  {
    var z := ['0'] + ds;
    if ds == [] {
      assert z[..|z| - 1] == [];
    } else {
      assert z[..|z| - 1] == ['0'] + ds[..|ds| - 1];
      assert z[|z| - 1] == ds[|ds| - 1];
      LeadingZero(ds[..|ds| - 1], radix);
    }
  }

  // ---------------------------------------------------------------------------
  // split
  // ---------------------------------------------------------------------------

  /** String.prototype.split with a one-character separator. */
  function Split(s: string, sep: char): (parts: seq<string>)
    ensures |parts| >= 1
    ensures forall k, i :: 0 <= k < |parts| && 0 <= i < |parts[k]| ==> parts[k][i] != sep
  {
    if s == [] then [[]]
    else
      var rest := Split(s[1..], sep);
      if s[0] == sep then [[]] + rest
      else [[s[0]] + rest[0]] + rest[1..]
  }

  /** Array.prototype.join with a one-character separator. */
  function Join(parts: seq<string>, sep: char): string
    requires |parts| >= 1
  {
    if |parts| == 1 then parts[0] else parts[0] + [sep] + Join(parts[1..], sep)
  }

  /** Splitting and joining back with the same separator gives the original string. */
  lemma {:induction false} JoinSplit(s: string, sep: char)
    ensures Join(Split(s, sep), sep) == s
  {
    if s != [] {
      var rest := Split(s[1..], sep);
      JoinSplit(s[1..], sep);
      if s[0] == sep {
        assert Split(s, sep)[1..] == rest;
      } else {
        var parts := Split(s, sep);
        if |rest| == 1 {
          assert parts == [[s[0]] + rest[0]];
        } else {
          assert parts[1..] == rest[1..];
          assert Join(rest, sep) == rest[0] + [sep] + Join(rest[1..], sep);
        }
      }
    }
  }

  /** The first piece of a split is everything before the first separator. */
  lemma {:induction false} SplitFirst(pre: string, post: string, sep: char)
    requires forall i :: 0 <= i < |pre| ==> pre[i] != sep
    ensures Split(pre + post, sep)[0] == pre + Split(post, sep)[0]
    ensures |Split(pre + post, sep)| == |Split(post, sep)|
    ensures Split(pre + post, sep)[1..] == Split(post, sep)[1..]
  {
    if pre == [] {
      assert pre + post == post;
    } else {
      assert (pre + post)[1..] == pre[1..] + post;
      SplitFirst(pre[1..], post, sep);
    }
  }

  /** The first piece of a split is a prefix of the string. */
  lemma {:induction false} SplitHead(s: string, sep: char)
    ensures Split(s, sep)[0] <= s
    ensures Split(s, sep)[0] == [] || Split(s, sep)[0][0] == s[0]
  {
    if s != [] && s[0] != sep {
      SplitHead(s[1..], sep);
      assert s == [s[0]] + s[1..];
    }
  }

  /** A separator at the front opens an empty piece and leaves the rest as Split(post). */
  lemma SplitAtSeparator(post: string, sep: char)
    ensures Split([sep] + post, sep) == [[]] + Split(post, sep)
  {
    assert ([sep] + post)[1..] == post;
  }

  // ---------------------------------------------------------------------------
  // Request bodies
  // ---------------------------------------------------------------------------

  /** The concatenation of the chunks, in order. */
  function Concat(chunks: seq<string>): string {
    if chunks == [] then [] else Concat(chunks[..|chunks| - 1]) + chunks[|chunks| - 1]
  }

  /** How the chunks are grouped does not change what they add up to. */
  lemma {:induction false} ConcatAppend(a: seq<string>, b: seq<string>)
    ensures Concat(a + b) == Concat(a) + Concat(b)
  {
    if b == [] {
      assert a + b == a;
    } else {
      var ab := a + b;
      var init := b[..|b| - 1];
      assert ab[..|ab| - 1] == a + init;
      assert ab[|ab| - 1] == b[|b| - 1];
      assert Concat(ab) == Concat(a + init) + b[|b| - 1];
      ConcatAppend(a, init);
    }
  }

  /**
    `let body = ''; req.on('data', chunk => body += chunk)`: the request body is the
    chunks of the `data` events appended in the order they arrive.
   */
  method CollectBody(chunks: seq<string>) returns (body: string)
    ensures body == Concat(chunks)
  {
    body := "";
    var i := 0;
    while i < |chunks|
      invariant 0 <= i <= |chunks|
      invariant body == Concat(chunks[..i])
    {
      assert chunks[..i + 1][..i] == chunks[..i];
      body := body + chunks[i];
      i := i + 1;
    }
    assert chunks[..i] == chunks;
  }
}
