/** The first wizard step: the personal-information record, its per-field
    edits, and the submit guard that decides whether the wizard may advance
    (every field present, and the e-mail matching the form's pattern). */
module PersonalInfoStep {
  import opened JsText

  datatype PersonalInfoData = PersonalInfoData(name: string, email: string, phone: string)

  datatype Field = Name | Email | Phone

  function Get(data: PersonalInfoData, field: Field): string {
    match field
    case Name => data.name
    case Email => data.email
    case Phone => data.phone
  }

  /** The record an input's `onChange` hands to `onDataChange`: a copy of
      `data` with one field replaced by the typed text. */
  function Edit(data: PersonalInfoData, field: Field, text: string): (r: PersonalInfoData)
    ensures Get(r, field) == text
    ensures forall other :: other != field ==> Get(r, other) == Get(data, other)
  {
    match field
    case Name => data.(name := text)
    case Email => data.(email := text)
    case Phone => data.(phone := text)
  }

  /** A character `[^\s@]` accepts. */
  predicate IsEmailChar(c: char) {
    !IsWhitespace(c) && c != '@'
  }

  /** `[^\s@]+`. */
  predicate IsEmailRun(s: string) {
    |s| > 0 && forall k :: 0 <= k < |s| ==> IsEmailChar(s[k])
  }

  /** `/^[^\s@]+@[^\s@]+\.[^\s@]+$/.test(s)`: some `@` at `i` and some `.` at
      `j` split the whole text into three runs of the class. */
  predicate MatchesEmailPattern(s: string)
    ensures MatchesEmailPattern(s) ==> 5 <= |s|
  {
    exists i, j :: 0 <= i < j < |s| && s[i] == '@' && s[j] == '.'
      && IsEmailRun(s[..i]) && IsEmailRun(s[i + 1..j]) && IsEmailRun(s[j + 1..])
  }

  /** The pattern described without a search: no whitespace, exactly one `@`
      with text before it, and a `.` after it that is neither the first nor
      the last character of the domain. */
  predicate HasEmailShape(s: string) {
    && (forall k :: 0 <= k < |s| ==> !IsWhitespace(s[k]))
    && |Split(s, '@')| == 2
    && Split(s, '@')[0] != []
    && |Split(s, '@')[1]| >= 3
    && '.' in Split(s, '@')[1][1..|Split(s, '@')[1]| - 1]
  }

  /** The pattern accepts exactly the texts of that shape. */
  lemma EmailPatternIffShape(s: string)
    ensures MatchesEmailPattern(s) <==> HasEmailShape(s)
  {
    if MatchesEmailPattern(s) {
      var i, j :| 0 <= i < j < |s| && s[i] == '@' && s[j] == '.'
        && IsEmailRun(s[..i]) && IsEmailRun(s[i + 1..j]) && IsEmailRun(s[j + 1..]);
      ShapeOfMatch(s, i, j);
    }
    if HasEmailShape(s) {
      MatchOfShape(s);
    }
  }

  lemma ShapeOfMatch(s: string, i: int, j: int)
    requires 0 <= i < j < |s| && s[i] == '@' && s[j] == '.'
    requires IsEmailRun(s[..i]) && IsEmailRun(s[i + 1..j]) && IsEmailRun(s[j + 1..])
    ensures HasEmailShape(s)
  {
    var local, domain := s[..i], s[i + 1..];
    forall k | 0 <= k < |s| ensures !IsWhitespace(s[k]) && (k != i ==> s[k] != '@') {
      if k != i {
        EmailCharsOutsideAt(s, i, j, k);
      }
    }
    assert '@' !in local;
    assert '@' !in domain by {
      forall k | 0 <= k < |domain| ensures domain[k] != '@' {
        assert domain[k] == s[i + 1 + k];
      }
    }
    assert s == local + [s[i]] + domain;
    SplitJoin([local, domain], '@');
    var d := j - i - 1;
    assert 0 < d < |domain| - 1;
    assert domain[1..|domain| - 1][d - 1] == '.';
  }

  lemma MatchOfShape(s: string)
    requires HasEmailShape(s)
    ensures MatchesEmailPattern(s)
  {
    var parts := Split(s, '@');
    var local, domain := parts[0], parts[1];
    assert s == local + ['@'] + domain by {
      assert parts == [local] + parts[1..];
      assert Join(parts, '@') == local + ['@'] + Join(parts[1..], '@');
    }
    var inner := domain[1..|domain| - 1];
    var d :| 0 <= d < |inner| && inner[d] == '.';
    var i, j := |local|, |local| + 2 + d;
    assert s[i] == '@';
    assert s[j] == domain[d + 1] == '.';
    assert s[..i] == local;
    assert s[i + 1..j] == domain[..d + 1];
    assert s[j + 1..] == domain[d + 2..];
    forall k | 0 <= k < |s| && k != i ensures IsEmailChar(s[k]) {
      if k > i {
        assert s[k] == domain[k - i - 1];
      }
    }
    assert IsEmailRun(s[..i]);
    var host, tld := s[i + 1..j], s[j + 1..];
    forall k | 0 <= k < |host| ensures IsEmailChar(host[k]) {
      assert host[k] == s[i + 1 + k];
    }
    forall k | 0 <= k < |tld| ensures IsEmailChar(tld[k]) {
      assert tld[k] == s[j + 1 + k];
    }
  }

  datatype SubmitOutcome = Next | Rejected(message: string)

  const MissingFieldsMessage := "Por favor completa todos los campos"
  const InvalidEmailMessage := "Por favor ingresa un email válido"

  /** `handleSubmit`: `Next` when the step calls `onNext`, otherwise the text
      of the alert it shows instead.  Presence is emptiness only. */
  function HandleSubmit(data: PersonalInfoData): (r: SubmitOutcome)
    ensures r == Next <==> data.name != "" && data.email != "" && data.phone != "" && MatchesEmailPattern(data.email)
    ensures r == Rejected(MissingFieldsMessage) <==> data.name == "" || data.email == "" || data.phone == ""
    ensures r.Rejected? ==> r.message in {MissingFieldsMessage, InvalidEmailMessage}
  {
    if data.name == "" || data.email == "" || data.phone == "" then Rejected(MissingFieldsMessage)
    else if !MatchesEmailPattern(data.email) then Rejected(InvalidEmailMessage)
    else Next
  }

  /** A name made only of spaces passes the presence check. */
  lemma BlankNameIsPresent()
    ensures HandleSubmit(PersonalInfoData("   ", "a@b.c", "3001234567")) == Next
  {
    var email := "a@b.c";
    assert email[..1] == "a" && email[2..3] == "b" && email[4..] == "c";
    assert IsEmailRun(email[..1]) && IsEmailRun(email[2..3]) && IsEmailRun(email[4..]);
    assert email[1] == '@' && email[3] == '.';
  }

  /** A domain with no dot strictly inside it is refused: a missing dot
      and a dot only at either end of the domain alike. */
  lemma DomainWithoutInnerDotRejected(local: string, domain: string)
    requires '@' !in local && '@' !in domain
    requires forall k :: 0 < k < |domain| - 1 ==> domain[k] != '.'
    ensures !MatchesEmailPattern(local + ['@'] + domain)
  {
    var s := local + ['@'] + domain;
    assert s == Join([local, domain], '@');
    SplitJoin([local, domain], '@');
    if |domain| >= 3 {
      var inner := domain[1..|domain| - 1];
      forall k | 0 <= k < |inner| ensures inner[k] != '.' {
        assert inner[k] == domain[k + 1];
      }
    }
    EmailPatternIffShape(s);
  }

  /** A text with two `@` is refused. */
  lemma SecondAtRejected(s: string, a: int, b: int)
    requires 0 <= a < b < |s| && s[a] == '@' && s[b] == '@'
    ensures !MatchesEmailPattern(s)
  {
    if MatchesEmailPattern(s) {
      var i, j :| 0 <= i < j < |s| && s[i] == '@' && s[j] == '.'
        && IsEmailRun(s[..i]) && IsEmailRun(s[i + 1..j]) && IsEmailRun(s[j + 1..]);
      EmailCharsOutsideAt(s, i, j, a);
      EmailCharsOutsideAt(s, i, j, b);
    }
  }

  /** A text with whitespace anywhere is refused. */
  lemma WhitespaceRejected(s: string, k: int)
    requires 0 <= k < |s| && IsWhitespace(s[k])
    ensures !MatchesEmailPattern(s)
  {
    EmailPatternIffShape(s);
  }

  /** In a match, the `@` found at `i` is the only one. */
  lemma EmailCharsOutsideAt(s: string, i: int, j: int, k: int)
    requires 0 <= i < j < |s| && s[i] == '@' && s[j] == '.'
    requires IsEmailRun(s[..i]) && IsEmailRun(s[i + 1..j]) && IsEmailRun(s[j + 1..])
    requires 0 <= k < |s| && k != i
    ensures IsEmailChar(s[k])
  {
    if k < i {
      assert s[k] == s[..i][k];
    } else if k < j {
      assert s[k] == s[i + 1..j][k - i - 1];
    } else if j < k {
      assert s[k] == s[j + 1..][k - j - 1];
    }
  }
}
