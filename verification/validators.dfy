/**
 * The part of the struct validator the models rely on: every field is
 * checked against its tags in order, and a field that fails contributes one
 * error naming the first tag it fails. The tag semantics themselves are
 * written out per model.
 */
module Tags {

  /** One failed constraint: the Go field name and the failing tag. */
  datatype FieldError = FieldError(field: string, tag: string)

  /** Every check of a field passes. */
  predicate AllPass(checks: seq<(string, bool)>)
  {
    |checks| == 0 || (checks[0].1 && AllPass(checks[1..]))
  }

  /** The errors of one field: none when every check passes, else the first failing tag. */
  function FirstFailure(field: string, checks: seq<(string, bool)>): (errs: seq<FieldError>)
    ensures |errs| <= 1
    ensures errs == [] <==> AllPass(checks)
    ensures errs != [] ==> errs[0].field == field && exists i | 0 <= i < |checks| :: !checks[i].1 && errs[0].tag == checks[i].0
    ensures |checks| > 0 && !checks[0].1 ==> errs == [FieldError(field, checks[0].0)]
  {
    if |checks| == 0 then []
    else if !checks[0].1 then [FieldError(field, checks[0].0)]
    else
      var rest := FirstFailure(field, checks[1..]);
      assert forall i | 1 <= i < |checks| :: checks[i] == checks[1..][i - 1];
      rest
  }

  /** Two checks, in order. */
  function Two(field: string, t1: string, c1: bool, t2: string, c2: bool): (errs: seq<FieldError>)
    ensures errs == [] <==> c1 && c2
    ensures errs == (if !c1 then [FieldError(field, t1)] else if !c2 then [FieldError(field, t2)] else [])
  {
    var checks := [(t1, c1), (t2, c2)];
    assert checks[1..] == [(t2, c2)];
    assert checks[1..][1..] == [];
    FirstFailure(field, checks)
  }

  /** One check. */
  function One(field: string, t: string, c: bool): (errs: seq<FieldError>)
    ensures errs == [] <==> c
    ensures !c ==> errs == [FieldError(field, t)]
  {
    var checks := [(t, c)];
    assert checks[1..] == [];
    FirstFailure(field, checks)
  }
}

/**
 * The two custom tags the project registers with the validator: an OGRN
 * (the Russian primary state registration number) is exactly 13 decimal
 * digits, an INN (taxpayer number) exactly 10 or exactly 12. Both patterns
 * are anchored at both ends and Go's `$` only matches at the end of the
 * text, so a trailing newline is rejected too.
 */
module CustomValidators {
  import opened Text

  /** A custom tag's check. */
  datatype Check = Ogrn | Inn

  /** `regexp.MatchString(`^\d{n}$`, s)`. */
  predicate Digits(s: string, n: nat)
  {
    |s| == n && AllDigits(s)
  }

  /** `validateOGRN`. */
  predicate ValidOgrn(s: string)
  {
    Digits(s, 13)
  }

  /** `validateINN`: `^\d{10}$|^\d{12}$`. */
  predicate ValidInn(s: string)
  {
    Digits(s, 10) || Digits(s, 12)
  }

  function Apply(c: Check, s: string): bool
  {
    match c
    case Ogrn => ValidOgrn(s)
    case Inn => ValidInn(s)
  }

  /**
   * `RegisterCustomValidators`: binds "ogrn" and "inn" in the validator's
   * tag table and leaves every other tag as it was.
   */
  function Register(tags: map<string, Check>): (r: map<string, Check>)
    ensures r.Keys == tags.Keys + {"ogrn", "inn"}
    ensures r["ogrn"] == Ogrn && r["inn"] == Inn
    ensures forall t | t in tags && t != "ogrn" && t != "inn" :: r[t] == tags[t]
  {
    tags["ogrn" := Ogrn]["inn" := Inn]
  }

  /** How many characters `\d*` reads from the start of `s`: the length of its longest all-digit prefix. */
  function LeadingDigits(s: string): (n: nat)
    ensures n <= |s|
  {
    if |s| == 0 || !IsDigit(s[0]) then 0 else 1 + LeadingDigits(s[1..])
  }

  /** The digit run reaches the end of the text exactly when the text is all digits. */
  lemma {:induction false} LeadingDigitsAll(s: string)
    ensures LeadingDigits(s) == |s| <==> AllDigits(s)
  {
    if |s| > 0 && IsDigit(s[0]) {
      LeadingDigitsAll(s[1..]);
      assert forall i | 1 <= i < |s| :: s[i] == s[1..][i - 1];
    }
  }

  /**
   * Reference readings of the OGRN rule: thirteen characters, each of
   * '0'..'9'; and, as the anchored pattern is matched, thirteen digits read
   * from the start with the end of the text right after them.
   */
  lemma OgrnCharacterised(s: string)
    ensures ValidOgrn(s) <==> |s| == 13 && forall i | 0 <= i < |s| :: '0' <= s[i] <= '9'
    ensures ValidOgrn(s) <==> LeadingDigits(s) == 13 && |s| == 13
  {
    LeadingDigitsAll(s);
  }

  /** The INN rule accepts exactly the all-digit strings of lengths 10 and 12, read either way. */
  lemma InnCharacterised(s: string)
    ensures ValidInn(s) <==> (|s| == 10 || |s| == 12) && forall i | 0 <= i < |s| :: '0' <= s[i] <= '9'
    ensures ValidInn(s) <==> (LeadingDigits(s) == |s| == 10 || LeadingDigits(s) == |s| == 12)
  {
    LeadingDigitsAll(s);
  }

  /** A non-digit anywhere, and a trailing newline in particular, is rejected by both tags. */
  lemma RejectsNonDigits(s: string, i: nat)
    requires i < |s| && !IsDigit(s[i])
    ensures !ValidOgrn(s) && !ValidInn(s)
  {
  }

  lemma RejectsTrailingNewline(s: string)
    ensures !ValidOgrn(s + "\n") && !ValidInn(s + "\n")
  {
    assert (s + "\n")[|s|] == '\n';
  }

  /**
   * After registration, the "ogrn" tag accepts exactly the texts that are a
   * run of thirteen digits, and the "inn" tag exactly the runs of ten or
   * twelve, whatever the table held before.
   */
  lemma RegisteredApply(tags: map<string, Check>, s: string)
    ensures Apply(Register(tags)["ogrn"], s) == ValidOgrn(s)
    ensures Apply(Register(tags)["inn"], s) == ValidInn(s)
    ensures Apply(Register(tags)["ogrn"], s) <==> LeadingDigits(s) == |s| == 13
    ensures Apply(Register(tags)["inn"], s) <==> LeadingDigits(s) == |s| == 10 || LeadingDigits(s) == |s| == 12
  {
    OgrnCharacterised(s);
    InnCharacterised(s);
  }
}
