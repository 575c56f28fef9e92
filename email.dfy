/**
 * The forgot-password form: the email pattern `^[^\s@]+@[^\s@]+\.[^\s@]+$`
 * with JavaScript's meaning of `\s`, `trim`, and the choice between the two
 * error messages and a reset request.
 */
module ForgotPassword {

  /** A character JavaScript's `\s` (and `trim`) treats as white space or a line terminator. */
  predicate IsJsWhitespace(c: char) {
    var n := c as int;
    || n == 0x09 || n == 0x0A || n == 0x0B || n == 0x0C || n == 0x0D || n == 0x20
    || n == 0xA0 || n == 0x1680 || (0x2000 <= n <= 0x200A)
    || n == 0x2028 || n == 0x2029 || n == 0x202F || n == 0x205F || n == 0x3000 || n == 0xFEFF
  }

  /** The class `[^\s@]`. */
  predicate NameChar(c: char) {
    !IsJsWhitespace(c) && c != '@'
  }

  predicate AllName(s: string) {
    forall i :: 0 <= i < |s| ==> NameChar(s[i])
  }

  predicate NoWhitespace(s: string) {
    forall i :: 0 <= i < |s| ==> !IsJsWhitespace(s[i])
  }

  /**
   * `validateEmail`: the whole string is a run of name characters, an '@',
   * a run of name characters, a '.', and a run of name characters, each run
   * non-empty.
   */
  predicate ValidateEmail(s: string)
    ensures ValidateEmail(s) ==> |s| >= 5 && NameChar(s[0]) && NameChar(s[|s| - 1])
  {
    exists i, j :: 0 < i && i + 1 < j && j + 1 < |s| && s[i] == '@' && s[j] == '.'
                   && AllName(s[..i]) && AllName(s[i + 1..j]) && AllName(s[j + 1..])
  }

  function CountOf(s: string, c: char): nat {
    if s == [] then 0 else CountOf(s[..|s| - 1], c) + (if s[|s| - 1] == c then 1 else 0)
  }

  lemma {:induction false} CountOfAppend(a: string, b: string, c: char)
    ensures CountOf(a + b, c) == CountOf(a, c) + CountOf(b, c)
    decreases |b|
  {
    if b == [] {
      assert a + b == a;
    } else {
      assert (a + b)[..|a + b| - 1] == a + b[..|b| - 1];
      CountOfAppend(a, b[..|b| - 1], c);
    }
  }

  lemma {:induction false} CountOfAbsent(s: string, c: char)
    requires forall k :: 0 <= k < |s| ==> s[k] != c
    ensures CountOf(s, c) == 0
    decreases |s|
  {
    if s != [] {
      CountOfAbsent(s[..|s| - 1], c);
    }
  }

  lemma {:induction false} CountOfPresent(s: string, c: char, k: int)
    requires 0 <= k < |s| && s[k] == c
    ensures CountOf(s, c) >= 1
    decreases |s|
  {
    if k < |s| - 1 {
      CountOfPresent(s[..|s| - 1], c, k);
    }
  }

  /** There is a '.' in `d` with at least one character on each side. */
  predicate HasInnerDot(d: string) {
    exists k :: 0 < k < |d| - 1 && d[k] == '.'
  }

  /**
   * The shape the pattern describes in plain terms: no white space, exactly
   * one '@', something before it, and a '.' strictly inside what follows it.
   */
  predicate EmailShape(s: string) {
    && NoWhitespace(s)
    && CountOf(s, '@') == 1
    && exists i :: 0 < i < |s| && s[i] == '@' && HasInnerDot(s[i + 1..])
  }

  /** A slice of name characters has a name character at each of its positions. */
  lemma NameRange(s: string, lo: int, hi: int)
    requires 0 <= lo <= hi <= |s| && AllName(s[lo..hi])
    ensures forall k :: lo <= k < hi ==> NameChar(s[k])
  {
    forall k | lo <= k < hi ensures NameChar(s[k]) {
      assert s[k] == s[lo..hi][k - lo];
    }
  }

  lemma NameSlice(s: string, lo: int, hi: int)
    requires 0 <= lo <= hi <= |s| && forall k :: lo <= k < hi ==> NameChar(s[k])
    ensures AllName(s[lo..hi])
  {
    var d := s[lo..hi];
    forall m | 0 <= m < |d| ensures NameChar(d[m]) {
      assert d[m] == s[lo + m];
    }
  }

  /** A character found at exactly one position occurs once. */
  lemma CountOfOnly(s: string, c: char, i: int)
    requires 0 <= i < |s| && s[i] == c
    requires forall k :: 0 <= k < |s| && k != i ==> s[k] != c
    ensures CountOf(s, c) == 1
  {
    var before, after := s[..i], s[i + 1..];
    assert s == before + [c] + after;
    CountOfAppend(before + [c], after, c);
    CountOfAppend(before, [c], c);
    assert forall k :: 0 <= k < |before| ==> before[k] == s[k];
    assert forall k :: 0 <= k < |after| ==> after[k] == s[i + 1 + k];
    CountOfAbsent(before, c);
    CountOfAbsent(after, c);
    assert [c][..0] == [];
  }

  /** A character that occurs once is found at no second position. */
  lemma CountOfOnce(s: string, c: char, i: int)
    requires 0 <= i < |s| && s[i] == c && CountOf(s, c) == 1
    ensures forall k :: 0 <= k < |s| && k != i ==> s[k] != c
  {
    forall m | 0 <= m < |s| && m != i ensures s[m] != c {
      if s[m] == c {
        var lo, hi := if m < i then m else i, if m < i then i else m;
        assert s == s[..hi] + s[hi..];
        CountOfAppend(s[..hi], s[hi..], c);
        CountOfPresent(s[..hi], c, lo);
        CountOfPresent(s[hi..], c, 0);
      }
    }
  }

  lemma AcceptedHasShape(s: string)
    requires ValidateEmail(s)
    ensures EmailShape(s)
  {
    var i, j :| 0 < i && i + 1 < j && j + 1 < |s| && s[i] == '@' && s[j] == '.'
                && AllName(s[..i]) && AllName(s[i + 1..j]) && AllName(s[j + 1..]);
    NameRange(s, 0, i);
    NameRange(s, i + 1, j);
    NameRange(s, j + 1, |s|);
    assert forall k :: 0 <= k < |s| && k != i && k != j ==> NameChar(s[k]);
    CountOfOnly(s, '@', i);
    var rest := s[i + 1..];
    assert rest[j - i - 1] == '.';
  }

  lemma ShapeIsAccepted(s: string)
    requires EmailShape(s)
    ensures ValidateEmail(s)
  {
    var i :| 0 < i < |s| && s[i] == '@' && HasInnerDot(s[i + 1..]);
    var rest := s[i + 1..];
    var k :| 0 < k < |rest| - 1 && rest[k] == '.';
    var j := i + 1 + k;
    assert s[j] == '.';
    CountOfOnce(s, '@', i);
    NameSlice(s, 0, i);
    NameSlice(s, i + 1, j);
    NameSlice(s, j + 1, |s|);
  }

  /** The pattern accepts exactly the strings of that shape. */
  lemma ValidateEmailIffShape(s: string)
    ensures ValidateEmail(s) <==> EmailShape(s)
  {
    if ValidateEmail(s) {
      AcceptedHasShape(s);
    }
    if EmailShape(s) {
      ShapeIsAccepted(s);
    }
  }

  function TrimStart(s: string): (r: string)
    ensures |r| <= |s| && r == s[|s| - |r|..]
    ensures r != [] ==> !IsJsWhitespace(r[0])
    ensures forall k :: 0 <= k < |s| - |r| ==> IsJsWhitespace(s[k])
  {
    if s != [] && IsJsWhitespace(s[0]) then TrimStart(s[1..]) else s
  }

  function TrimEnd(s: string): (r: string)
    ensures |r| <= |s| && r == s[..|r|]
    ensures r != [] ==> !IsJsWhitespace(r[|r| - 1])
    ensures forall k :: |r| <= k < |s| ==> IsJsWhitespace(s[k])
  {
    if s != [] && IsJsWhitespace(s[|s| - 1]) then TrimEnd(s[..|s| - 1]) else s
  }

  /** How many characters `trim` drops from the front. */
  function LeadingSpace(s: string): (n: nat)
    ensures n <= |s|
  {
    |s| - |TrimStart(s)|
  }

  /** `String.prototype.trim`: white space dropped from both ends. */
  function Trim(s: string): string {
    TrimEnd(TrimStart(s))
  }

  /**
   * What `trim` keeps is the slice of the input after its leading white
   * space; only white space comes before and after that slice, and none
   * is left at either of its ends.
   */
  lemma TrimIsSlice(s: string)
    ensures var a, r := LeadingSpace(s), Trim(s);
      && a + |r| <= |s| && r == s[a..a + |r|]
      && (forall k :: 0 <= k < a ==> IsJsWhitespace(s[k]))
      && (forall k :: a + |r| <= k < |s| ==> IsJsWhitespace(s[k]))
      && (r != [] ==> !IsJsWhitespace(r[0]) && !IsJsWhitespace(r[|r| - 1]))
  {
    var t := TrimStart(s);
    TrimmedSlice(s, |s| - |t|, t, TrimEnd(t));
  }

  /**
   * Dropping white space from the front of `s` (giving `t`) and then from
   * the back (giving `r`) leaves a slice of `s` bordered by white space only.
   */
  lemma TrimmedSlice(s: string, a: int, t: string, r: string)
    requires 0 <= a <= |s| && t == s[a..]
    requires t != [] ==> !IsJsWhitespace(t[0])
    requires |r| <= |t| && r == t[..|r|]
    requires forall k :: |r| <= k < |t| ==> IsJsWhitespace(t[k])
    ensures a + |r| <= |s| && r == s[a..a + |r|]
    ensures forall k :: a + |r| <= k < |s| ==> IsJsWhitespace(s[k])
    ensures r != [] ==> !IsJsWhitespace(r[0])
  {
    forall k | a + |r| <= k < |s| ensures IsJsWhitespace(s[k]) {
      assert s[k] == t[k - a];
    }
    if r != [] {
      assert r[0] == t[0];
    }
  }

  /** Trimming leaves nothing exactly when the string is all white space. */
  lemma TrimEmptyIffBlank(s: string)
    ensures Trim(s) == [] <==> forall k :: 0 <= k < |s| ==> IsJsWhitespace(s[k])
  {
  }

  const RequiredMessage := "Email is required."
  const InvalidMessage := "Enter a valid email address."

  datatype SubmitResult = EmailError(message: string) | ResetRequested(email: string)

  /**
   * `handleSubmit`'s validation: a blank email is reported as required, an
   * email the pattern rejects as invalid, and any other email, untrimmed,
   * is sent on as a reset request.
   */
  function Submit(email: string): (r: SubmitResult)
    ensures r.ResetRequested? <==> ValidateEmail(email)
    ensures r.ResetRequested? ==> r.email == email
    ensures r == EmailError(RequiredMessage) <==> forall k :: 0 <= k < |email| ==> IsJsWhitespace(email[k])
    ensures r == EmailError(InvalidMessage) <==> (exists k :: 0 <= k < |email| && !IsJsWhitespace(email[k])) && !ValidateEmail(email)
  {
    TrimEmptyIffBlank(email);
    if Trim(email) == [] then EmailError(RequiredMessage)
    else if !ValidateEmail(email) then EmailError(InvalidMessage)
    else ResetRequested(email)
  }

  /** White space around an otherwise valid address is not trimmed away: the form rejects it. */
  lemma PaddedEmailRejected(s: string)
    requires |s| > 0 && (IsJsWhitespace(s[0]) || IsJsWhitespace(s[|s| - 1]))
    ensures !ValidateEmail(s)
  {
    if ValidateEmail(s) {
      AcceptedHasShape(s);
    }
  }

  lemma SubmitAcceptsExample()
    ensures Submit("a@b.co") == ResetRequested("a@b.co")
  {
    var s := "a@b.co";
    assert s[1] == '@' && s[3] == '.';
    assert AllName(s[..1]) && AllName(s[2..3]) && AllName(s[4..]);
  }

  lemma SubmitRequiredExample()
    ensures Submit("  ") == EmailError(RequiredMessage)
  {
    var s := "  ";
    assert IsJsWhitespace(s[0]) && IsJsWhitespace(s[1]);
  }

  lemma SubmitInvalidExample()
    ensures Submit("a@b") == EmailError(InvalidMessage)
  {
    var t := "a@b";
    assert !IsJsWhitespace(t[0]);
  }
}
