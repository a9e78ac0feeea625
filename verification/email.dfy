/**
  The email check `isValidEmail`, which tests a string against the regular
  expression `^[^\s@]+@[^\s@]+\.[^\s@]+$`.

  `IsValidEmail` decides the question by positions in the string; the ghost
  predicate `MatchesEmailPattern` states what the regular expression accepts
  (three non-empty runs of "plain" characters joined by `@` and `.`);
  `ValidEmailMatchesPattern` proves the two agree on every string.
 */
module Email {
  import opened JsValues

  /** The JavaScript regular-expression class `\s`: the ASCII whitespace
      characters tab through carriage return and space, plus the Unicode space
      separators, line and paragraph separators, and the byte-order mark. */
  predicate IsSpace(c: char) {
    var n := c as int;
    || (0x09 <= n <= 0x0D)
    || n == 0x20
    || n == 0xA0
    || n == 0x1680
    || (0x2000 <= n <= 0x200A)
    || n == 0x2028
    || n == 0x2029
    || n == 0x202F
    || n == 0x205F
    || n == 0x3000
    || n == 0xFEFF
  }

  /** The character class `[^\s@]`. */
  predicate Plain(c: char) {
    c != '@' && !IsSpace(c)
  }

  /** Every character of `w` is in the class `[^\s@]`. */
  predicate AllPlain(w: string) {
    forall i :: 0 <= i < |w| ==> Plain(w[i])
  }

  /** The pattern `[^\s@]+`: a non-empty run of plain characters. */
  predicate Word(w: string) {
    |w| > 0 && AllPlain(w)
  }

  /** The part after the `@`: a run of plain characters with a `.` that has
      at least one character before it and one after it. */
  predicate ValidDomain(d: string) {
    Word(d) && exists j :: 1 <= j < |d| - 1 && d[j] == '.'
  }

  /** `isValidEmail(email)` for a string argument. */
  predicate IsValidEmail(s: string) {
    exists k :: 0 <= k < |s| && s[k] == '@' && Word(s[..k]) && ValidDomain(s[k + 1..])
  }

  /** What the regular expression accepts, written as the concatenation it
      describes: local part, `@`, domain name, `.`, last label. */
  ghost predicate MatchesEmailPattern(s: string) {
    exists a, b, c :: Word(a) && Word(b) && Word(c) && s == a + "@" + b + "." + c
  }

  lemma AllPlainSlice(w: string, i: nat, j: nat)
    requires AllPlain(w) && i <= j <= |w|
    ensures AllPlain(w[i..j])
  {
  }

  lemma AllPlainJoin(a: string, b: string)
    requires AllPlain(a) && AllPlain(b)
    ensures AllPlain(a + "." + b)
  {
  }

  lemma PatternWitness(s: string, a: string, b: string, c: string)
    requires Word(a) && Word(b) && Word(c) && s == a + "@" + b + "." + c
    ensures MatchesEmailPattern(s)
  {
  }

  /** Cutting a string at position `k` around the character there. */
  lemma CutAt(s: string, k: nat, mark: char)
    requires k < |s| && s[k] == mark
    ensures s == s[..k] + [mark] + s[k + 1..]
  {
  }

  /** A valid domain cut at a qualifying dot gives two words. */
  lemma DomainParts(d: string, j: nat)
    requires Word(d) && 1 <= j < |d| - 1 && d[j] == '.'
    ensures Word(d[..j]) && Word(d[j + 1..])
    ensures d == d[..j] + "." + d[j + 1..]
  {
  }

  lemma Regroup(a: string, b: string, c: string)
    ensures a + "@" + (b + "." + c) == a + "@" + b + "." + c
  {
  }

  /** Every string the validator accepts splits as the regular expression says. */
  lemma {:induction false} ValidEmailIsPattern(s: string)
    requires IsValidEmail(s)
    ensures MatchesEmailPattern(s)
  {
    var k :| 0 <= k < |s| && s[k] == '@' && Word(s[..k]) && ValidDomain(s[k + 1..]);
    var d := s[k + 1..];
    var j :| 1 <= j < |d| - 1 && d[j] == '.';
    DomainParts(d, j);
    CutAt(s, k, '@');
    Regroup(s[..k], d[..j], d[j + 1..]);
    PatternWitness(s, s[..k], d[..j], d[j + 1..]);
  }

  /** Every string the regular expression matches passes the validator. */
  lemma {:induction false} PatternIsValidEmail(a: string, b: string, c: string)
    requires Word(a) && Word(b) && Word(c)
    ensures IsValidEmail(a + "@" + b + "." + c)
  {
    var s := a + "@" + b + "." + c;
    var k := |a|;
    var d := b + "." + c;
    AllPlainJoin(b, c);
    assert s == a + "@" + d;
    assert s[k] == '@';
    assert s[..k] == a;
    assert s[k + 1..] == d;
    assert d[|b|] == '.';
    assert ValidDomain(d);
  }

  lemma {:induction false} ValidEmailMatchesPattern(s: string)
    ensures IsValidEmail(s) <==> MatchesEmailPattern(s)
  {
    if IsValidEmail(s) {
      ValidEmailIsPattern(s);
    }
    if MatchesEmailPattern(s) {
      var a, b, c :| Word(a) && Word(b) && Word(c) && s == a + "@" + b + "." + c;
      PatternIsValidEmail(a, b, c);
    }
  }

  /** A valid address has exactly one `@` and no whitespace anywhere. */
  lemma {:induction false} ValidEmailHasOneAtAndNoSpace(s: string)
    requires IsValidEmail(s)
    ensures exists k :: 0 <= k < |s| && s[k] == '@' && forall i :: 0 <= i < |s| && i != k ==> s[i] != '@'
    ensures forall i :: 0 <= i < |s| ==> !IsSpace(s[i])
  {
    var k :| 0 <= k < |s| && s[k] == '@' && Word(s[..k]) && ValidDomain(s[k + 1..]);
    forall i | 0 <= i < |s| && i != k
      ensures Plain(s[i])
    {
      if i < k {
        assert s[i] == s[..k][i];
      } else {
        assert s[i] == s[k + 1..][i - k - 1];
      }
    }
  }

  /** What the regular expression's `test` does with a parsed JSON value. */
  datatype EmailVerdict = Matches | NoMatch | Throws

  /** `test` first turns its argument into text. A string is matched as it
      is. `undefined`, numbers, booleans and `null` become text without an
      `@` (`"undefined"`, `"30"`, `"true"`, `"null"`), so they never match.
      An object becomes `"[object Object]"` unless it has an own `toString`
      property: a JSON value is never callable, and the inherited `valueOf`
      returns the object itself, so the conversion throws a `TypeError`.
      Arrays are treated as not matching. */
  function EmailTest(v: JsValue): (r: EmailVerdict)
    ensures r == Matches <==> v.Str? && IsValidEmail(v.s)
    ensures r == Throws <==> v.Obj? && "toString" in v.props
  {
    match v
    case Str(s) => if IsValidEmail(s) then Matches else NoMatch
    case Obj(props) => if "toString" in props then Throws else NoMatch
    case _ => NoMatch
  }

  /** `isValidEmail(email)` returns true. */
  predicate EmailAccepts(v: JsValue) {
    EmailTest(v) == Matches
  }

  /** The texts that non-string scalars and plain objects turn into are all
      rejected, so for them `NoMatch` is what the conversion would give. */
  lemma CoercedTextsAreInvalid()
    ensures !IsValidEmail("undefined") && !IsValidEmail("null")
    ensures !IsValidEmail("true") && !IsValidEmail("false")
    ensures !IsValidEmail("[object Object]")
  {
    AddressWithoutAtIsInvalid("undefined");
    AddressWithoutAtIsInvalid("null");
    AddressWithoutAtIsInvalid("true");
    AddressWithoutAtIsInvalid("false");
    AddressWithoutAtIsInvalid("[object Object]");
  }

  lemma ExampleAddressIsValid()
    ensures IsValidEmail("alice@example.com")
  {
    var s := "alice@example.com";
    assert s[5] == '@';
    assert s[..5] == "alice";
    assert s[6..] == "example.com";
    assert "example.com"[7] == '.';
  }

  lemma {:induction false} AddressWithoutAtIsInvalid(s: string)
    requires forall i :: 0 <= i < |s| ==> s[i] != '@'
    ensures !IsValidEmail(s)
  {
  }

  lemma NotAnEmailIsInvalid()
    ensures !IsValidEmail("not-an-email")
  {
    AddressWithoutAtIsInvalid("not-an-email");
  }
}
