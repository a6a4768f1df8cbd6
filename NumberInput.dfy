/** The numeric text input: `formatNumber`, which keeps the digits and dots
    of a text, groups the integer digits in threes with `.` and writes the
    decimal part after a `,`; and the input's `value` state, set from the
    typed text by `handleChange` and from the `value` prop by the effect. */
module NumberInput {
  import opened JsText

  predicate IsDigitOrDot(c: char) {
    IsDigit(c) || c == '.'
  }

  /** `num.replace(/[^\d.]/g, "")`. */
  function Clean(num: string): (r: string)
    ensures forall k :: 0 <= k < |r| ==> IsDigitOrDot(r[k])
    ensures forall c {:trigger multiset(r)[c]} :: IsDigitOrDot(c) ==> multiset(r)[c] == multiset(num)[c]
  {
    Filter(num, IsDigitOrDot)
  }

  /** `\w`, whose edges `\b` and `\B` look at. */
  predicate IsWordChar(c: char) {
    'a' <= c <= 'z' || 'A' <= c <= 'Z' || IsDigit(c) || c == '_'
  }

  /** `(\d{3})+(?!\d)` matches from `p` to `q`: the digits between come in
      threes and no digit follows them. */
  predicate DigitGroupsTo(s: string, p: nat, q: nat)
    requires p <= q <= |s|
  {
    && (q - p) % 3 == 0
    && (forall k :: p <= k < q ==> IsDigit(s[k]))
    && (q == |s| || !IsDigit(s[q]))
  }

  /** `\B(?=(\d{3})+(?!\d))` matches at position `p` of `s`: no word edge
      there (word characters on both sides or on neither), and the lookahead
      finds at least one group of three digits. */
  predicate SeparatorAt(s: string, p: nat)
    requires p <= |s|
  {
    && (p > 0 && IsWordChar(s[p - 1])) == (p < |s| && IsWordChar(s[p]))
    && exists q :: p < q <= |s| && DigitGroupsTo(s, p, q)
  }

  /** `s.replace(/\B(?=(\d{3})+(?!\d))/g, ".")` from position `p` on: a `.`
      goes in at every position where the pattern matches. */
  function InsertSeparators(s: string, p: nat): (r: string)
    requires p <= |s|
    ensures (forall k :: p <= k < |s| ==> IsDigit(s[k])) ==> forall k :: 0 <= k < |r| ==> IsDigitOrDot(r[k])
    decreases |s| - p
  {
    (if SeparatorAt(s, p) then "." else "")
    + (if p == |s| then "" else [s[p]] + InsertSeparators(s, p + 1))
  }

  function GroupThousands(digits: string): (r: string)
    ensures AllDigits(digits) ==> forall k :: 0 <= k < |r| ==> IsDigitOrDot(r[k])
  {
    InsertSeparators(digits, 0)
  }

  /** In a string of digits the pattern matches exactly at the inner
      positions that leave a multiple of three digits after them. */
  lemma SeparatorAtDigits(d: string, p: nat)
    requires AllDigits(d) && p <= |d|
    ensures SeparatorAt(d, p) <==> 0 < p < |d| && (|d| - p) % 3 == 0
  {
    if 0 < p < |d| && (|d| - p) % 3 == 0 {
      assert IsWordChar(d[p - 1]) && IsWordChar(d[p]);
      var q := |d|;
      assert DigitGroupsTo(d, p, q);
    }
    if SeparatorAt(d, p) {
      var q :| p < q <= |d| && DigitGroupsTo(d, p, q);
    }
  }

  /** The digits split into groups from the right: every group holds three
      digits except the first, which holds one to three. */
  function Chunks(d: string): (r: seq<string>)
    ensures |r| >= 1
    ensures d != [] ==> 1 <= |r[0]| <= 3
    ensures forall i :: 1 <= i < |r| ==> |r[i]| == 3
    ensures Concat(r) == d
    ensures AllDigits(d) ==> forall i :: 0 <= i < |r| ==> AllDigits(r[i])
    decreases |d|
  {
    if |d| <= 3 then
      assert Concat([d]) == d + Concat([]);
      [d]
    else
      var a, b := d[..|d| - 3], d[|d| - 3..];
      ConcatSnoc(Chunks(a), b);
      assert a + b == d;
      Chunks(a) + [b]
  }

  /** Past the last position where a separator could go, the replacement
      copies the text unchanged. */
  lemma {:induction false} NoSeparatorsLeft(d: string, p: nat)
    requires AllDigits(d) && p <= |d|
    requires |d| <= 3 || |d| - 3 < p
    ensures InsertSeparators(d, p) == d[p..]
    decreases |d| - p
  {
    SeparatorAtDigits(d, p);
    if p < |d| {
      NoSeparatorsLeft(d, p + 1);
      assert d[p..] == [d[p]] + d[p + 1..];
    }
  }

  /** With more than three digits, the replacement of everything up to the
      last three digits is that of the shorter text, then `.` and those three
      digits. */
  lemma {:induction false} SeparatorsBeforeLastGroup(d: string, p: nat)
    requires AllDigits(d) && |d| > 3 && p <= |d| - 3
    ensures InsertSeparators(d, p)
         == InsertSeparators(d[..|d| - 3], p) + ['.'] + d[|d| - 3..]
    decreases |d| - p
  {
    var a, b := d[..|d| - 3], d[|d| - 3..];
    if p == |a| {
      LastGroup(d);
    } else {
      SameSeparator(d, p);
      SeparatorsBeforeLastGroup(d, p + 1);
      var rest := InsertSeparators(a, p + 1);
      var sep := if SeparatorAt(d, p) then "." else "";
      assert a[p] == d[p];
      assert InsertSeparators(a, p) == sep + ([a[p]] + rest);
      assert InsertSeparators(d, p) == sep + ([d[p]] + (rest + ['.'] + b));
      assert sep + ([d[p]] + (rest + ['.'] + b)) == sep + ([a[p]] + rest) + ['.'] + b;
    }
  }

  /** Before the last group, dropping the last three digits keeps the
      separator positions. */
  lemma SameSeparator(d: string, p: nat)
    requires AllDigits(d) && |d| > 3 && p < |d| - 3
    ensures SeparatorAt(d, p) == SeparatorAt(d[..|d| - 3], p)
  {
    var a := d[..|d| - 3];
    SeparatorAtDigits(d, p);
    SeparatorAtDigits(a, p);
  }

  /** The separator before the last three of more than three digits. */
  lemma LastGroup(d: string)
    requires AllDigits(d) && |d| > 3
    ensures InsertSeparators(d, |d| - 3) == InsertSeparators(d[..|d| - 3], |d| - 3) + ['.'] + d[|d| - 3..]
  {
    var p := |d| - 3;
    var a := d[..p];
    assert InsertSeparators(a, p) == "" by {
      assert AllDigits(a);
      SeparatorAtDigits(a, p);
    }
    var rest := InsertSeparators(d, p + 1);
    assert rest == d[p + 1..] by {
      NoSeparatorsLeft(d, p + 1);
    }
    assert SeparatorAt(d, p) by {
      SeparatorAtDigits(d, p);
    }
    assert InsertSeparators(d, p) == "." + ([d[p]] + rest);
    assert d[p..] == [d[p]] + d[p + 1..];
  }

  /** The regular-expression replacement joins the groups with `.`. */
  lemma {:induction false} GroupThousandsJoinsChunks(d: string)
    requires AllDigits(d)
    ensures GroupThousands(d) == Join(Chunks(d), '.')
    decreases |d|
  {
    if |d| <= 3 {
      NoSeparatorsLeft(d, 0);
    } else {
      var a, b := d[..|d| - 3], d[|d| - 3..];
      SeparatorsBeforeLastGroup(d, 0);
      GroupThousandsJoinsChunks(a);
      JoinSnoc(Chunks(a), b, '.');
    }
  }

  /** The grouped integer part: its `.`-separated pieces are the groups of
      three (the first one to three digits), deleting the dots gives back the
      digits, and it neither starts nor ends with a separator. */
  lemma GroupThousandsShape(d: string)
    requires AllDigits(d)
    ensures Split(GroupThousands(d), '.') == Chunks(d)
    ensures Filter(GroupThousands(d), c => c != '.') == d
    ensures d != [] ==>
      GroupThousands(d)[0] != '.' && GroupThousands(d)[|GroupThousands(d)| - 1] != '.'
  {
    GroupSplitsIntoChunks(d);
    GroupDropsToDigits(d);
    if d != [] {
      GroupEnds(d);
    }
  }

  /** No group holds a `.`, and with digits present no group is empty. */
  lemma ChunksOfDigits(d: string)
    requires AllDigits(d)
    ensures forall i :: 0 <= i < |Chunks(d)| ==> '.' !in Chunks(d)[i]
    ensures d != [] ==> forall i :: 0 <= i < |Chunks(d)| ==> Chunks(d)[i] != []
  {
    var chunks := Chunks(d);
    forall i | 0 <= i < |chunks| ensures '.' !in chunks[i] {
      assert AllDigits(chunks[i]);
    }
  }

  lemma GroupSplitsIntoChunks(d: string)
    requires AllDigits(d)
    ensures Split(GroupThousands(d), '.') == Chunks(d)
  {
    GroupThousandsJoinsChunks(d);
    ChunksOfDigits(d);
    SplitJoin(Chunks(d), '.');
  }

  lemma GroupDropsToDigits(d: string)
    requires AllDigits(d)
    ensures Filter(GroupThousands(d), c => c != '.') == d
  {
    GroupThousandsJoinsChunks(d);
    ChunksOfDigits(d);
    FilterJoin(Chunks(d), '.');
  }

  lemma GroupEnds(d: string)
    requires AllDigits(d) && d != []
    ensures GroupThousands(d)[0] != '.' && GroupThousands(d)[|GroupThousands(d)| - 1] != '.'
  {
    var chunks := Chunks(d);
    GroupThousandsJoinsChunks(d);
    ChunksOfDigits(d);
    JoinEnds(chunks, '.');
    assert IsDigit(chunks[0][0]);
    var last := chunks[|chunks| - 1];
    assert IsDigit(last[|last| - 1]);
  }

  /** `formatNumber`. */
  function FormatNumber(num: string): string {
    var parts := Split(Clean(num), '.');
    var integer := GroupThousands(parts[0]);
    if |parts| > 1 then integer + [','] + parts[1] else integer
  }

  /** Without a dot among the kept characters, the result is the grouped
      digits and holds no `,`. */
  lemma FormatWithoutDot(num: string)
    requires '.' !in Clean(num)
    ensures FormatNumber(num) == GroupThousands(Clean(num))
    ensures ',' !in FormatNumber(num)
  {
    var c := Clean(num);
    SplitNoSeparator(c, '.');
    assert AllDigits(c);
  }

  /** With a first dot at `i` among the kept characters and the next dot (or
      the end) at `j`, the result is the grouped digits before `i`, a `,`, and
      the digits between `i` and `j`; whatever follows `j` is dropped. */
  lemma FormatWithDot(num: string, i: nat, j: nat)
    requires i < j <= |Clean(num)|
    requires Clean(num)[i] == '.' && '.' !in Clean(num)[..i]
    requires '.' !in Clean(num)[i + 1..j] && (j == |Clean(num)| || Clean(num)[j] == '.')
    ensures FormatNumber(num) == GroupThousands(Clean(num)[..i]) + [','] + Clean(num)[i + 1..j]
    ensures AllDigits(Clean(num)[..i]) && AllDigits(Clean(num)[i + 1..j])
  {
    var c := Clean(num);
    SplitFirstTwo(c, '.', i, j);
    forall k | 0 <= k < i ensures IsDigit(c[..i][k]) {
      assert c[..i][k] == c[k];
    }
    var decimals := c[i + 1..j];
    forall k | 0 <= k < |decimals| ensures IsDigit(decimals[k]) {
      assert decimals[k] == c[i + 1 + k];
    }
  }

  /** A text of digits only, such as the one `handleChange` forwards, is
      shown as its groups of three, and stripping that display down to its
      digits gives the text back. */
  lemma FormatDigits(d: string)
    requires AllDigits(d)
    ensures FormatNumber(d) == GroupThousands(d)
    ensures DigitsOnly(FormatNumber(d)) == d
  {
    FilterKeepsAll(d, IsDigitOrDot);
    assert '.' !in d by {
      assert forall k :: 0 <= k < |d| ==> IsDigit(d[k]);
    }
    FormatWithoutDot(d);
    var g := GroupThousands(d);
    assert forall k :: 0 <= k < |g| ==> IsDigitOrDot(g[k]);
    GroupDropsToDigits(d);
    FilterAgrees(g, IsDigit, c => c != '.');
  }

  /** The input element's `value` state. */
  class NumberInput {
    /** Whether the caller passed an `onChange` prop. */
    const hasOnChange: bool
    var value: string

    /** `useState(props.value || "")`; the prop is given as its text, empty
        when absent. */
    constructor(propValue: string, hasOnChange: bool)
      ensures value == propValue && this.hasOnChange == hasOnChange
    {
      value := propValue;
      this.hasOnChange := hasOnChange;
    }

    /** `handleChange`: shows the formatted text and forwards the typed text
        with every non-digit removed to the caller's `onChange`, if any. */
    method HandleChange(rawValue: string) returns (forwarded: Option<string>)
      modifies this
      ensures value == FormatNumber(rawValue)
      ensures forwarded == if hasOnChange then Some(DigitsOnly(rawValue)) else None
      ensures forwarded.Some? ==> AllDigits(forwarded.value)
    {
      value := FormatNumber(rawValue);
      var numericValue := DigitsOnly(rawValue);
      if hasOnChange {
        forwarded := Some(numericValue);
      } else {
        forwarded := None;
      }
    }

    /** The effect on the `value` prop: a non-empty prop replaces the shown
        text with its formatting; an empty one leaves it as it was. */
    method SyncValue(propValue: string)
      modifies this
      ensures value == if propValue != "" then FormatNumber(propValue) else old(value)
    {
      if propValue != "" {
        value := FormatNumber(propValue);
      }
    }
  }
}
