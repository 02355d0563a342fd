/** The JavaScript string built-ins the dashboard uses: `String(v)`, `parseInt`,
    `toLowerCase`, `includes`, and `Array.prototype.join` with its inverse `split`. */
module JsString {
  import opened Wrappers

  /** `String(v)` for a field value that may be `undefined`. */
  function ToJsString(v: Option<string>): (r: string)
    ensures v.Some? ==> r == v.value
    ensures v.None? ==> r == "undefined"
  {
    match v
    case Some(s) => s
    case None => "undefined"
  }

  // ---------------------------------------------------------------------------
  // parseInt(string) with no radix argument

  /** The characters `parseInt` skips before the number: WhiteSpace and LineTerminator
      of ECMAScript (tab, LF, VT, FF, CR, space, NBSP, BOM, LS, PS and the Zs category). */
  predicate IsStrWhiteSpace(c: char) {
    var n := c as int;
    n == 0x09 || n == 0x0A || n == 0x0B || n == 0x0C || n == 0x0D || n == 0x20 ||
    n == 0xA0 || n == 0x1680 || (0x2000 <= n <= 0x200A) || n == 0x2028 || n == 0x2029 ||
    n == 0x202F || n == 0x205F || n == 0x3000 || n == 0xFEFF
  }

  predicate IsDecimalDigit(c: char) {
    '0' <= c <= '9'
  }

  /** The value of `c` as a digit in base `radix` (10 or 16), if it is one. */
  function DigitValue(c: char, radix: nat): Option<nat>
    requires radix == 10 || radix == 16
  {
    if '0' <= c <= '9' then Some(c as nat - '0' as nat)
    else if radix == 16 && 'a' <= c <= 'f' then Some(c as nat - 'a' as nat + 10)
    else if radix == 16 && 'A' <= c <= 'F' then Some(c as nat - 'A' as nat + 10)
    else None
  }

  /** `s` without its leading white space. */
  function TrimStart(s: string): (r: string)
    ensures |r| <= |s| && r == s[|s| - |r|..]
    ensures r == [] || !IsStrWhiteSpace(r[0])
  {
    if s != [] && IsStrWhiteSpace(s[0]) then TrimStart(s[1..]) else s
  }

  /** The length of the longest prefix of `s` made of base-`radix` digits. */
  function DigitPrefixLength(s: string, radix: nat): (n: nat)
    requires radix == 10 || radix == 16
    ensures n <= |s|
    ensures forall i :: 0 <= i < n ==> DigitValue(s[i], radix).Some?
    ensures n < |s| ==> DigitValue(s[n], radix).None?
  {
    if s != [] && DigitValue(s[0], radix).Some? then 1 + DigitPrefixLength(s[1..], radix) else 0
  }

  /** The number a string of base-`radix` digits denotes. */
  function DigitsValue(ds: string, radix: nat): nat
    requires radix == 10 || radix == 16
    requires forall i :: 0 <= i < |ds| ==> DigitValue(ds[i], radix).Some?
  {
    if ds == [] then 0
    else DigitsValue(ds[..|ds| - 1], radix) * radix + DigitValue(ds[|ds| - 1], radix).value
  }

  /** `parseInt(s)`: skip white space, read an optional sign and an optional `0x`/`0X`
      prefix (which switches to base 16), then the longest run of digits. `None` is `NaN`,
      returned when there is no digit at all; `-0` is represented by 0. */
  function ParseInt(s: string): Option<int> {
    ParseSigned(TrimStart(s))
  }

  /** The sign step of `parseInt`, on text that starts after the white space. */
  function ParseSigned(t: string): Option<int> {
    if t != [] && t[0] == '-' then
      match ParseUnsigned(t[1..])
      case Some(m) => Some(-(m as int))
      case None => None
    else if t != [] && t[0] == '+' then
      match ParseUnsigned(t[1..])
      case Some(m) => Some(m)
      case None => None
    else
      match ParseUnsigned(t)
      case Some(m) => Some(m)
      case None => None
  }

  /** The radix step of `parseInt`: a `0x` or `0X` prefix selects base 16, otherwise base 10. */
  function ParseUnsigned(u: string): Option<nat> {
    if |u| >= 2 && u[0] == '0' && (u[1] == 'x' || u[1] == 'X') then ParseDigits(u[2..], 16)
    else ParseDigits(u, 10)
  }

  /** The digit step of `parseInt`: the value of the longest run of digits, `NaN` if it is empty. */
  function ParseDigits(v: string, radix: nat): Option<nat>
    requires radix == 10 || radix == 16
  {
    var n := DigitPrefixLength(v, radix);
    if n == 0 then None else Some(DigitsValue(v[..n], radix))
  }

  /** `parseInt(s) || 0`: both `NaN` and zero are falsy, so a failed parse becomes 0. */
  function ParseIntOrZero(s: string): int {
    ParseInt(s).GetOr(0)
  }

  /** The decimal numeral of a natural number, without leading zeros. */
  function NatToDecimal(n: nat): (r: string)
    ensures |r| >= 1
    ensures forall i :: 0 <= i < |r| ==> IsDecimalDigit(r[i])
    ensures r[0] == '0' ==> n == 0
  {
    if n < 10 then [('0' as int + n) as char]
    else NatToDecimal(n / 10) + [('0' as int + n % 10) as char]
  }

  /** The decimal numeral of an integer, with a `-` for a negative one (`String(n)`). */
  function IntToDecimal(n: int): string {
    if n < 0 then "-" + NatToDecimal(-n) else NatToDecimal(n)
  }

  lemma {:induction false} DigitsValueOfDecimal(n: nat)
    ensures forall i :: 0 <= i < |NatToDecimal(n)| ==> DigitValue(NatToDecimal(n)[i], 10).Some?
    ensures DigitsValue(NatToDecimal(n), 10) == n
  {
    var r := NatToDecimal(n);
    assert forall i :: 0 <= i < |r| ==> DigitValue(r[i], 10).Some?;
    if 10 <= n {
      DigitsValueOfDecimal(n / 10);
      assert r[..|r| - 1] == NatToDecimal(n / 10);
    }
  }

  lemma {:induction false} DigitPrefixOfDigitsThenOther(ds: string, rest: string, radix: nat)
    requires radix == 10 || radix == 16
    requires forall i :: 0 <= i < |ds| ==> DigitValue(ds[i], radix).Some?
    requires rest == [] || DigitValue(rest[0], radix).None?
    ensures DigitPrefixLength(ds + rest, radix) == |ds|
  {
    if ds == [] {
      assert ds + rest == rest;
    } else {
      assert (ds + rest)[0] == ds[0];
      assert (ds + rest)[1..] == ds[1..] + rest;
      DigitPrefixOfDigitsThenOther(ds[1..], rest, radix);
    }
  }

  lemma ParseDigitsOfDecimal(m: nat, rest: string)
    requires rest == [] || !IsDecimalDigit(rest[0])
    ensures ParseDigits(NatToDecimal(m) + rest, 10) == Some(m)
  {
    var ds := NatToDecimal(m);
    DigitsValueOfDecimal(m);
    DigitPrefixOfDigitsThenOther(ds, rest, 10);
    assert (ds + rest)[..|ds|] == ds;
  }

  lemma ParseUnsignedOfDecimal(m: nat, rest: string)
    requires rest == [] || !IsDecimalDigit(rest[0])
    requires m == 0 ==> rest == [] || (rest[0] != 'x' && rest[0] != 'X')
    ensures ParseUnsigned(NatToDecimal(m) + rest) == Some(m)
  {
    var ds := NatToDecimal(m);
    var u := ds + rest;
    ParseDigitsOfDecimal(m, rest);
    if |u| >= 2 && u[0] == '0' {
      assert ds[0] == '0';
      assert ds == "0";
      assert u[1] == rest[0];
    }
  }

  /** `parseInt` reads back the decimal numeral of any integer, and stops at the first
      character that cannot continue it: `parseInt("250 miles")` is 250. A numeral
      "0" followed by `x` would instead start a hexadecimal number. */
  lemma ParseIntOfDecimal(n: int, rest: string)
    requires rest == [] || !IsDecimalDigit(rest[0])
    requires n == 0 ==> rest == [] || (rest[0] != 'x' && rest[0] != 'X')
    ensures ParseInt(IntToDecimal(n) + rest) == Some(n)
  {
    var m: nat := if n < 0 then -n else n;
    ParseUnsignedOfDecimal(m, rest);
    if n < 0 {
      ParseIntOfNegative(m, rest);
    } else {
      ParseIntOfNonNegative(m, rest);
    }
  }

  lemma ParseIntNoSpace(s: string)
    requires s != [] && !IsStrWhiteSpace(s[0])
    ensures ParseInt(s) == ParseSigned(s)
  {
  }

  lemma ParseSignedNegative(t: string, m: nat)
    requires t != [] && t[0] == '-' && ParseUnsigned(t[1..]) == Some(m)
    ensures ParseSigned(t) == Some(-(m as int))
  {
  }

  lemma ParseSignedUnsigned(t: string, m: nat)
    requires t != [] && t[0] != '-' && t[0] != '+' && ParseUnsigned(t) == Some(m)
    ensures ParseSigned(t) == Some(m)
  {
  }

  lemma ParseIntOfNegative(m: nat, rest: string)
    requires m > 0 && ParseUnsigned(NatToDecimal(m) + rest) == Some(m)
    ensures ParseInt(IntToDecimal(-(m as int)) + rest) == Some(-(m as int))
  {
    var d := NatToDecimal(m);
    var u := d + rest;
    var s := "-" + u;
    assert IntToDecimal(-(m as int)) == "-" + d;
    assert ("-" + d) + rest == s;
    assert s[0] == '-' && s[1..] == u;
    ParseSignedNegative(s, m);
    ParseIntNoSpace(s);
  }

  lemma ParseIntOfNonNegative(m: nat, rest: string)
    requires ParseUnsigned(NatToDecimal(m) + rest) == Some(m)
    ensures ParseInt(IntToDecimal(m) + rest) == Some(m)
  {
    var s := NatToDecimal(m) + rest;
    assert s[0] == NatToDecimal(m)[0];
    assert IsDecimalDigit(s[0]);
    ParseSignedUnsigned(s, m);
    ParseIntNoSpace(s);
  }

  /** Leading white space does not change what `parseInt` reads. */
  lemma {:induction false} ParseIntSkipsWhiteSpace(ws: string, s: string)
    requires forall i :: 0 <= i < |ws| ==> IsStrWhiteSpace(ws[i])
    ensures ParseInt(ws + s) == ParseInt(s)
  {
    if ws == [] {
      assert ws + s == s;
    } else {
      assert (ws + s)[0] == ws[0];
      assert (ws + s)[1..] == ws[1..] + s;
      ParseIntSkipsWhiteSpace(ws[1..], s);
    }
  }

  /** No character of `s` is a decimal digit. */
  predicate NoDecimalDigit(s: string) {
    forall i :: 0 <= i < |s| ==> !IsDecimalDigit(s[i])
  }

  lemma ParseUnsignedWithoutDigits(u: string)
    requires NoDecimalDigit(u)
    ensures ParseUnsigned(u) == None
  {
    if u != [] {
      assert !IsDecimalDigit(u[0]);
    }
  }

  /** Text without any decimal digit, such as "abc", "" or "undefined", is `NaN` to
      `parseInt`, and so counts as 0 after `|| 0`. */
  lemma ParseIntWithoutDigits(s: string)
    requires NoDecimalDigit(s)
    ensures ParseInt(s) == None
    ensures ParseIntOrZero(s) == 0
  {
    var t := TrimStart(s);
    assert NoDecimalDigit(t) by {
      forall i | 0 <= i < |t| ensures !IsDecimalDigit(t[i]) {
        assert t[i] == s[|s| - |t| + i];
      }
    }
    if t != [] {
      assert NoDecimalDigit(t[1..]) by {
        forall i | 0 <= i < |t[1..]| ensures !IsDecimalDigit(t[1..][i]) {
          assert t[1..][i] == t[i + 1];
        }
      }
      ParseUnsignedWithoutDigits(t[1..]);
    }
    ParseUnsignedWithoutDigits(t);
  }

  // ---------------------------------------------------------------------------
  // toLowerCase and includes

  /** ASCII case mapping: `A`..`Z` become `a`..`z`, every other character is kept. */
  function LowerChar(c: char): char {
    if 'A' <= c <= 'Z' then (c as int - 'A' as int + 'a' as int) as char else c
  }

  /** `s.toLowerCase()`, restricted to the ASCII letters. */
  function ToLowerCase(s: string): (r: string)
    ensures |r| == |s|
    ensures forall i :: 0 <= i < |r| ==> !('A' <= r[i] <= 'Z')
    ensures forall i :: 0 <= i < |r| ==> r[i] == s[i] || (r[i] as int) - (s[i] as int) == 32
  {
    seq(|s|, i requires 0 <= i < |s| => LowerChar(s[i]))
  }

  /** Lowercasing twice is lowercasing once. */
  lemma ToLowerCaseIdempotent(s: string)
    ensures ToLowerCase(ToLowerCase(s)) == ToLowerCase(s)
  {
  }

  /** `t` occurs in `s` starting at position `i`. */
  predicate OccursAt(s: string, t: string, i: int) {
    0 <= i && i + |t| <= |s| && s[i..i + |t|] == t
  }

  /** `s.includes(t)`: `t` occurs in `s` as a contiguous substring. */
  predicate Includes(s: string, t: string) {
    exists i :: 0 <= i <= |s| - |t| && OccursAt(s, t, i)
  }

  /** Every string includes the empty string, and itself. */
  lemma IncludesEmptyAndSelf(s: string)
    ensures Includes(s, "")
    ensures Includes(s, s)
  {
    assert OccursAt(s, "", 0);
    assert OccursAt(s, s, 0);
  }

  // ---------------------------------------------------------------------------
  // Array.prototype.join and String.prototype.split on one character

  /** `parts.join(sep)`. */
  function Join(parts: seq<string>, sep: string): string {
    if |parts| == 0 then ""
    else if |parts| == 1 then parts[0]
    else parts[0] + sep + Join(parts[1..], sep)
  }

  /** `s.split(c)`: the pieces between occurrences of `c` (always at least one). */
  function Split(s: string, c: char): (r: seq<string>)
    ensures |r| >= 1
  {
    if s == [] then [""]
    else if s[0] == c then [""] + Split(s[1..], c)
    else
      var rest := Split(s[1..], c);
      [[s[0]] + rest[0]] + rest[1..]
  }

  lemma {:induction false} SplitWithout(p: string, c: char)
    requires c !in p
    ensures Split(p, c) == [p]
  {
    if p != [] {
      SplitWithout(p[1..], c);
      assert [p[0]] + p[1..] == p;
    }
  }

  lemma {:induction false} SplitPiece(p: string, c: char, rest: string)
    requires c !in p
    ensures Split(p + [c] + rest, c) == [p] + Split(rest, c)
  {
    if p == [] {
      assert p + [c] + rest == [c] + rest;
      assert ([c] + rest)[1..] == rest;
    } else {
      assert (p + [c] + rest)[1..] == p[1..] + [c] + rest;
      SplitPiece(p[1..], c, rest);
      assert [p[0]] + p[1..] == p;
    }
  }

  /** `split` undoes `join` when no part contains the separator. */
  lemma {:induction false} SplitJoin(parts: seq<string>, c: char)
    requires |parts| >= 1
    requires forall i :: 0 <= i < |parts| ==> c !in parts[i]
    ensures Split(Join(parts, [c]), c) == parts
  {
    if |parts| == 1 {
      SplitWithout(parts[0], c);
    } else {
      SplitJoin(parts[1..], c);
      SplitPiece(parts[0], c, Join(parts[1..], [c]));
      assert parts == [parts[0]] + parts[1..];
    }
  }

  /** A join contains the separator only where it put it, or where a part has it. */
  lemma {:induction false} JoinWithout(parts: seq<string>, sep: char, c: char)
    requires sep != c
    requires forall i :: 0 <= i < |parts| ==> c !in parts[i]
    ensures c !in Join(parts, [sep])
  {
    if |parts| >= 2 {
      JoinWithout(parts[1..], sep, c);
    }
  }
}
