/** The JavaScript built-ins the form's logic relies on, on `string` values:
    the `\s` and `\d` character classes, removal of a character class with
    `replace(/[^...]/g, "")`, `trim`, `split` and `join` on one separator
    character, `padStart`, `String(n)` for an integer `n`, and `parseInt`
    called without a radix.  The value NaN is `None`. */
module JsText {

  datatype Option<T> = None | Some(value: T)

  /** The characters matched by `\s` in a JavaScript regular expression, which
      are also the characters `String.prototype.trim` removes: the ECMAScript
      WhiteSpace and LineTerminator code points. */
  predicate IsWhitespace(c: char) {
    var n := c as int;
    n == 0x09 || n == 0x0A || n == 0x0B || n == 0x0C || n == 0x0D || n == 0x20
    || n == 0xA0 || n == 0x1680 || (0x2000 <= n <= 0x200A) || n == 0x2028
    || n == 0x2029 || n == 0x202F || n == 0x205F || n == 0x3000 || n == 0xFEFF
  }

  /** `\d`: the ASCII decimal digits. */
  predicate IsDigit(c: char) {
    '0' <= c <= '9'
  }

  predicate AllDigits(s: string) {
    forall k :: 0 <= k < |s| ==> IsDigit(s[k])
  }

  /** The characters of `s` that `keep` accepts, in their order: what
      `s.replace(/[^...]/g, "")` leaves when `keep` is the class between the
      brackets.  Every kept character keeps its multiplicity. */
  function Filter(s: string, keep: char -> bool): (r: string)
    ensures |r| <= |s|
    ensures forall k :: 0 <= k < |r| ==> keep(r[k])
    ensures forall c {:trigger multiset(r)[c]} :: keep(c) ==> multiset(r)[c] == multiset(s)[c]
  {
    if s == [] then []
    else
      assert s == [s[0]] + s[1..];
      (if keep(s[0]) then [s[0]] else []) + Filter(s[1..], keep)
  }

  /** The first character is kept or dropped, and the rest is filtered after
      it: together with `FilterAppend` this fixes the order of what is kept. */
  lemma FilterCons(c: char, s: string, keep: char -> bool)
    ensures Filter([c] + s, keep) == (if keep(c) then [c] else []) + Filter(s, keep)
  {
    assert ([c] + s)[0] == c && ([c] + s)[1..] == s;
  }

  /** Filtering a concatenation filters each part. */
  lemma {:induction false} FilterAppend(a: string, b: string, keep: char -> bool)
    ensures Filter(a + b, keep) == Filter(a, keep) + Filter(b, keep)
  {
    if a != [] {
      assert (a + b)[0] == a[0];
      assert (a + b)[1..] == a[1..] + b;
      FilterAppend(a[1..], b, keep);
    } else {
      assert a + b == b;
    }
  }

  /** A string whose characters are all kept is its own filtering; in
      particular filtering is idempotent. */
  lemma {:induction false} FilterKeepsAll(s: string, keep: char -> bool)
    requires forall k :: 0 <= k < |s| ==> keep(s[k])
    ensures Filter(s, keep) == s
  {
    if s != [] {
      FilterKeepsAll(s[1..], keep);
    }
  }

  /** Two filters that agree on every character of `s` keep the same text. */
  lemma {:induction false} FilterAgrees(s: string, keep: char -> bool, keep': char -> bool)
    requires forall k :: 0 <= k < |s| ==> keep(s[k]) == keep'(s[k])
    ensures Filter(s, keep) == Filter(s, keep')
  {
    if s != [] {
      FilterAgrees(s[1..], keep, keep');
    }
  }

  /** `s.replace(/\D/g, "")` and `s.replace(/[^\d]/g, "")`. */
  function DigitsOnly(s: string): (r: string)
    ensures AllDigits(r)
    ensures forall c {:trigger multiset(r)[c]} :: IsDigit(c) ==> multiset(r)[c] == multiset(s)[c]
  {
    Filter(s, IsDigit)
  }

  /** Removing non-digits changes nothing on a string of digits, so a second
      pass is a no-op. */
  lemma DigitsOnlyIdempotent(s: string)
    ensures DigitsOnly(DigitsOnly(s)) == DigitsOnly(s)
    ensures AllDigits(s) ==> DigitsOnly(s) == s
  {
    FilterKeepsAll(DigitsOnly(s), IsDigit);
    if AllDigits(s) {
      FilterKeepsAll(s, IsDigit);
    }
  }

  /** `trimStart`: drops the leading whitespace. */
  function TrimStart(s: string): (r: string)
    ensures |r| <= |s| && r == s[|s| - |r|..]
    ensures forall k :: 0 <= k < |s| - |r| ==> IsWhitespace(s[k])
    ensures r == [] || !IsWhitespace(r[0])
  {
    if s != [] && IsWhitespace(s[0]) then TrimStart(s[1..]) else s
  }

  /** `trimEnd`: drops the trailing whitespace. */
  function TrimEnd(s: string): (r: string)
    ensures |r| <= |s| && r == s[..|r|]
    ensures forall k :: |r| <= k < |s| ==> IsWhitespace(s[k])
    ensures r == [] || !IsWhitespace(r[|r| - 1])
  {
    if s != [] && IsWhitespace(s[|s| - 1]) then TrimEnd(s[..|s| - 1]) else s
  }

  /** `trim`. */
  function Trim(s: string): (r: string)
    ensures |r| <= |s|
    ensures r != [] ==> !IsWhitespace(r[0]) && !IsWhitespace(r[|r| - 1])
  {
    TrimEnd(TrimStart(s))
  }

  /** `!s.trim()` holds exactly when every character of `s` is whitespace. */
  lemma TrimEmptyIffBlank(s: string)
    ensures Trim(s) == [] <==> forall k :: 0 <= k < |s| ==> IsWhitespace(s[k])
  {
    var t := TrimStart(s);
    if Trim(s) != [] {
      var r := Trim(s);
      assert r[0] == t[0];
    }
  }

  /** `parts.join(sep)`. */
  function Join(parts: seq<string>, sep: char): string {
    if |parts| == 0 then []
    else if |parts| == 1 then parts[0]
    else parts[0] + [sep] + Join(parts[1..], sep)
  }

  /** Joining one more piece appends the separator and that piece. */
  lemma {:induction false} JoinSnoc(parts: seq<string>, last: string, sep: char)
    requires |parts| >= 1
    ensures Join(parts + [last], sep) == Join(parts, sep) + [sep] + last
  {
    if |parts| > 1 {
      assert (parts + [last])[1..] == parts[1..] + [last];
      JoinSnoc(parts[1..], last, sep);
    }
  }

  /** The pieces one after the other, with nothing between them. */
  function Concat(parts: seq<string>): string {
    if |parts| == 0 then [] else parts[0] + Concat(parts[1..])
  }

  lemma {:induction false} ConcatSnoc(parts: seq<string>, last: string)
    ensures Concat(parts + [last]) == Concat(parts) + last
  {
    if |parts| == 0 {
      assert parts + [last] == [last];
    } else {
      assert (parts + [last])[1..] == parts[1..] + [last];
      ConcatSnoc(parts[1..], last);
    }
  }

  /** Deleting the separators from a join gives back the pieces, one after
      the other, when no piece contains the separator. */
  lemma {:induction false} FilterJoin(parts: seq<string>, sep: char)
    requires forall i :: 0 <= i < |parts| ==> sep !in parts[i]
    ensures Filter(Join(parts, sep), c => c != sep) == Concat(parts)
  {
    var notSep := c => c != sep;
    if |parts| == 1 {
      FilterKeepsAll(parts[0], notSep);
      assert Concat(parts) == parts[0] + Concat([]);
    } else if |parts| > 1 {
      FilterKeepsAll(parts[0], notSep);
      FilterAppend(parts[0], [sep] + Join(parts[1..], sep), notSep);
      FilterAppend([sep], Join(parts[1..], sep), notSep);
      assert Filter([sep], notSep) == [];
      FilterJoin(parts[1..], sep);
      assert parts[0] + [sep] + Join(parts[1..], sep) == parts[0] + ([sep] + Join(parts[1..], sep));
    }
  }

  /** A join of non-empty pieces starts with the first character of its
      first piece and ends with the last character of its last piece. */
  lemma {:induction false} JoinEnds(parts: seq<string>, sep: char)
    requires |parts| >= 1 && forall i :: 0 <= i < |parts| ==> parts[i] != []
    ensures |Join(parts, sep)| > 0
    ensures Join(parts, sep)[0] == parts[0][0]
    ensures Join(parts, sep)[|Join(parts, sep)| - 1] == parts[|parts| - 1][|parts[|parts| - 1]| - 1]
  {
    var j := Join(parts, sep);
    if |parts| == 1 {
      assert j == parts[0];
    } else {
      var head, tail := parts[0], parts[1..];
      var rest := Join(tail, sep);
      assert forall i :: 0 <= i < |tail| ==> tail[i] == parts[i + 1];
      JoinEnds(tail, sep);
      assert tail[|tail| - 1] == parts[|parts| - 1];
      assert j == head + ([sep] + rest);
      assert j[0] == head[0];
      assert j[|j| - 1] == rest[|rest| - 1];
    }
  }

  /** `s.split(sep)` for a one-character separator: the pieces between the
      occurrences of `sep`, one more piece than there are separators. */
  function Split(s: string, sep: char): (r: seq<string>)
    ensures |r| >= 1
    ensures forall i :: 0 <= i < |r| ==> sep !in r[i]
    ensures Join(r, sep) == s
  {
    if s == [] then [[]]
    else
      var t := Split(s[1..], sep);
      if s[0] == sep then [[]] + t
      else
        assert t == [t[0]] + t[1..];
        [[s[0]] + t[0]] + t[1..]
  }

  /** Splitting undoes joining, when no piece contains the separator. */
  lemma {:induction false} SplitJoin(parts: seq<string>, sep: char)
    requires |parts| >= 1
    requires forall i :: 0 <= i < |parts| ==> sep !in parts[i]
    ensures Split(Join(parts, sep), sep) == parts
  {
    if |parts| == 1 {
      SplitPiece(parts[0], [], sep);
    } else {
      var rest := Join(parts[1..], sep);
      SplitJoin(parts[1..], sep);
      SplitPiece(parts[0], [sep] + rest, sep);
      assert ([sep] + rest)[1..] == rest;
      assert parts[0] + [sep] + rest == parts[0] + ([sep] + rest);
      assert parts == [parts[0]] + parts[1..];
    }
  }

  /** Splitting `a + b`, where `a` holds no separator and `b` is empty or
      starts with one: `a` is the first piece, and the other pieces come from
      the text after that separator. */
  lemma {:induction false} SplitPiece(a: string, b: string, sep: char)
    requires sep !in a
    requires b == [] || b[0] == sep
    ensures b == [] ==> Split(a + b, sep) == [a]
    ensures b != [] ==> Split(a + b, sep) == [a] + Split(b[1..], sep)
  {
    if a == [] {
      assert a + b == b;
      if b != [] {
        assert b == [b[0]] + b[1..];
      }
    } else {
      SplitPiece(a[1..], b, sep);
      assert (a + b)[1..] == a[1..] + b;
      assert [a[0]] + a[1..] == a;
    }
  }

  /** The first piece of a split is the text before the first separator, and
      the rest of the pieces come from the text after it. */
  lemma SplitAtFirst(s: string, sep: char, i: nat)
    requires i < |s| && s[i] == sep && sep !in s[..i]
    ensures Split(s, sep) == [s[..i]] + Split(s[i + 1..], sep)
  {
    assert s == s[..i] + s[i..];
    assert s[i..][1..] == s[i + 1..];
    SplitPiece(s[..i], s[i..], sep);
  }

  /** With no separator, the split has the single piece `s`. */
  lemma SplitNoSeparator(s: string, sep: char)
    requires sep !in s
    ensures Split(s, sep) == [s]
  {
    assert s + [] == s;
    SplitPiece(s, [], sep);
  }

  /** The first two pieces of a split: the text before the first
      separator at `i`, and the text from there up to the next separator or
      the end at `j`. */
  lemma SplitFirstTwo(s: string, sep: char, i: nat, j: nat)
    requires i < j <= |s| && s[i] == sep && sep !in s[..i]
    requires sep !in s[i + 1..j] && (j == |s| || s[j] == sep)
    ensures |Split(s, sep)| >= 2
    ensures Split(s, sep)[0] == s[..i] && Split(s, sep)[1] == s[i + 1..j]
  {
    var rest := s[i + 1..];
    var k := j - i - 1;
    assert rest[..k] == s[i + 1..j];
    assert k == |rest| || rest[k] == sep;
    SecondPiece(rest, sep, k);
    SplitAtFirst(s, sep, i);
    var t := Split(rest, sep);
    assert Split(s, sep) == [s[..i]] + t;
    assert Split(s, sep)[1] == t[0];
  }

  /** The first piece of the split of `s` ends at `k`, the first separator
      or the end. */
  lemma SecondPiece(s: string, sep: char, k: nat)
    requires k <= |s| && sep !in s[..k] && (k == |s| || s[k] == sep)
    ensures Split(s, sep)[0] == s[..k]
  {
    if k == |s| {
      assert s[..k] == s;
      SplitNoSeparator(s, sep);
    } else {
      SplitAtFirst(s, sep, k);
    }
  }

  /** `s.padStart(n, fill)` for a one-character fill string. */
  function PadStart(s: string, n: nat, fill: char): (r: string)
    ensures |r| == if |s| >= n then |s| else n
    ensures r[|r| - |s|..] == s
    ensures forall k :: 0 <= k < |r| - |s| ==> r[k] == fill
  {
    if |s| >= n then s else seq(n - |s|, _ => fill) + s
  }

  /** The character of a decimal digit. */
  function DigitChar(d: nat): (c: char)
    requires d < 10
    ensures IsDigit(c) && DigitValue(c) == d
  {
    ['0', '1', '2', '3', '4', '5', '6', '7', '8', '9'][d]
  }

  /** The digit value of a character as `parseInt` reads it in any radix up
      to 36; 36 for characters that are no digit at all. */
  function DigitValue(c: char): nat {
    if '0' <= c <= '9' then c as nat - '0' as nat
    else if 'a' <= c <= 'z' then c as nat - 'a' as nat + 10
    else if 'A' <= c <= 'Z' then c as nat - 'A' as nat + 10
    else 36
  }

  predicate IsRadixDigit(c: char, radix: nat) {
    DigitValue(c) < radix
  }

  /** The value of a digit string in `radix`, most significant digit first. */
  function Value(digits: string, radix: nat): nat {
    if digits == [] then 0
    else Value(digits[..|digits| - 1], radix) * radix + DigitValue(digits[|digits| - 1])
  }

  /** The longest prefix of `s` made of digits of `radix`. */
  function DigitPrefix(s: string, radix: nat): (r: string)
    ensures |r| <= |s| && r == s[..|r|]
    ensures forall k :: 0 <= k < |r| ==> IsRadixDigit(r[k], radix)
    ensures |r| == |s| || !IsRadixDigit(s[|r|], radix)
  {
    if s != [] && IsRadixDigit(s[0], radix) then [s[0]] + DigitPrefix(s[1..], radix) else []
  }

  /** The digit prefix of `a + b` is `a` when `a` is all digits and `b` does
      not start with one. */
  lemma {:induction false} DigitPrefixOf(a: string, b: string, radix: nat)
    requires forall k :: 0 <= k < |a| ==> IsRadixDigit(a[k], radix)
    requires b == [] || !IsRadixDigit(b[0], radix)
    ensures DigitPrefix(a + b, radix) == a
  {
    if a == [] {
      assert a + b == b;
    } else {
      assert (a + b)[1..] == a[1..] + b;
      DigitPrefixOf(a[1..], b, radix);
    }
  }

  /** `parseInt(s)`: skips leading whitespace, reads an optional sign, then
      the number `ParseUnsigned` reads; NaN (`None`) when that is NaN. */
  function ParseInt(s: string): Option<int> {
    var t := TrimStart(s);
    match ParseUnsigned(Unsigned(t))
    case None => None
    case Some(v) => Some(if |t| > 0 && t[0] == '-' then -v else v)
  }

  /** An optional `0x`/`0X` prefix (which switches to radix 16), then the
      longest run of digits; NaN (`None`) when that run is empty. */
  function ParseUnsigned(u: string): Option<int> {
    var digits := DigitPrefix(Unprefixed(u), Radix(u));
    if digits == [] then None else Some(Value(digits, Radix(u)) as int)
  }

  /** The text after an optional leading sign. */
  function Unsigned(t: string): string {
    if |t| > 0 && (t[0] == '-' || t[0] == '+') then t[1..] else t
  }

  predicate HasHexPrefix(u: string) {
    |u| >= 2 && u[0] == '0' && (u[1] == 'x' || u[1] == 'X')
  }

  function Radix(u: string): nat {
    if HasHexPrefix(u) then 16 else 10
  }

  function Unprefixed(u: string): string {
    if HasHexPrefix(u) then u[2..] else u
  }

  /** `String(n)` for a natural number: its decimal digits without leading
      zeros. */
  function NatToString(n: nat): (r: string)
    ensures |r| >= 1 && AllDigits(r)
    ensures r[0] == '0' ==> n == 0
  {
    if n < 10 then [DigitChar(n)] else NatToString(n / 10) + [DigitChar(n % 10)]
  }

  /** `String(n)` for an integer. */
  function IntToString(n: int): (r: string)
    ensures |r| >= 1
  {
    if n < 0 then "-" + NatToString(-n) else NatToString(n)
  }

  lemma {:induction false} ValueOfNatToString(n: nat)
    ensures Value(NatToString(n), 10) == n
  {
    if n >= 10 {
      var s := NatToString(n / 10) + [DigitChar(n % 10)];
      assert s[..|s| - 1] == NatToString(n / 10);
      ValueOfNatToString(n / 10);
    }
  }

  /** Decimal digits followed by a character that ends them (not an `x`
      right after a leading `0`, which would make a hexadecimal prefix). */
  lemma ParseUnsignedDecimal(d: string, rest: string)
    requires d != [] && AllDigits(d)
    requires rest == [] || (!IsDigit(rest[0]) && rest[0] != 'x' && rest[0] != 'X')
    ensures ParseUnsigned(d + rest) == Some(Value(d, 10) as int)
  {
    assert !HasHexPrefix(d + rest) by {
      if |d| >= 2 {
        assert (d + rest)[1] == d[1];
      } else if |d + rest| >= 2 {
        assert (d + rest)[1] == rest[0];
      }
    }
    DigitPrefixOf(d, rest, 10);
  }

  /** `parseInt` reads back the number `String(n)` wrote, and stops at the
      first character after it that is no digit (an `x` right after `0` would
      turn the text into a hexadecimal prefix instead). */
  lemma ParseIntOfIntToString(n: int, rest: string)
    requires rest == [] || (!IsDigit(rest[0]) && rest[0] != 'x' && rest[0] != 'X')
    ensures ParseInt(IntToString(n) + rest) == Some(n)
  {
    if n < 0 {
      ParseIntOfNegative(n, rest);
    } else {
      ParseIntOfNonNegative(n, rest);
    }
  }

  lemma ParseIntOfNegative(n: int, rest: string)
    requires n < 0
    requires rest == [] || (!IsDigit(rest[0]) && rest[0] != 'x' && rest[0] != 'X')
    ensures ParseInt(IntToString(n) + rest) == Some(n)
  {
    var m: nat := -n;
    var d := NatToString(m);
    var u := d + rest;
    assert IntToString(n) + rest == ['-'] + u;
    DecimalText(m, rest);
    ParseIntSigned(u, '-', m);
  }

  /** `String(m)` followed by a character that ends it reads as `m`. */
  lemma DecimalText(m: nat, rest: string)
    requires rest == [] || (!IsDigit(rest[0]) && rest[0] != 'x' && rest[0] != 'X')
    ensures ParseUnsigned(NatToString(m) + rest) == Some(m)
  {
    ValueOfNatToString(m);
    ParseUnsignedDecimal(NatToString(m), rest);
  }

  lemma ParseIntOfNonNegative(n: nat, rest: string)
    requires rest == [] || (!IsDigit(rest[0]) && rest[0] != 'x' && rest[0] != 'X')
    ensures ParseInt(IntToString(n) + rest) == Some(n)
  {
    var d := NatToString(n);
    var u := d + rest;
    assert IntToString(n) + rest == u;
    assert u[0] == d[0];
    ValueOfNatToString(n);
    ParseUnsignedDecimal(d, rest);
    ParseIntUnsigned(u, n);
  }

  /** `parseInt` of text that starts with a sign. */
  lemma ParseIntSigned(u: string, sign: char, v: int)
    requires sign == '-' || sign == '+'
    requires ParseUnsigned(u) == Some(v)
    ensures ParseInt([sign] + u) == Some(if sign == '-' then -v else v)
  {
    var s := [sign] + u;
    assert s[0] == sign && s[1..] == u;
    var t := TrimStart(s);
    assert t == s;
    assert Unsigned(t) == u;
    assert ParseUnsigned(Unsigned(t)) == Some(v);
  }

  /** `parseInt` of text that starts with neither whitespace nor a sign. */
  lemma ParseIntUnsigned(s: string, v: int)
    requires s != [] && !IsWhitespace(s[0]) && s[0] != '-' && s[0] != '+'
    requires ParseUnsigned(s) == Some(v)
    ensures ParseInt(s) == Some(v)
  {
    assert TrimStart(s) == s;
  }

  /** `parseInt` of a non-empty string of decimal digits is their decimal
      value; of the empty string it is NaN. */
  lemma ParseIntOfDigits(s: string)
    requires AllDigits(s)
    ensures s == [] ==> ParseInt(s) == None
    ensures s != [] ==> ParseInt(s) == Some(Value(s, 10) as int)
  {
    if s != [] {
      ParseUnsignedDecimal(s, []);
      assert s + [] == s;
      assert IsDigit(s[0]);
      ParseIntUnsigned(s, Value(s, 10));
    } else {
      assert TrimStart(s) == [];
      assert Unprefixed(Unsigned([])) == [] && Radix(Unsigned([])) == 10;
      assert DigitPrefix([], 10) == [];
    }
  }
}
