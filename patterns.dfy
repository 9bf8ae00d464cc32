/**
 * The regular expressions of the controllers and schemas, written as string predicates.
 * Where a regex has a non-obvious shape, the module gives both a predicate that follows the
 * regex's own structure (with the choice points the regex engine backtracks over as
 * existential witnesses) and a direct one that scans the string, and proves them equal.
 */
module Patterns {
  import opened Js

  // ---------------------------------------------------------------------------------------
  // /^[^\s@]+@[^\s@]+\.[^\s@]+$/   (isValidEmail in the contact handler, Contact.email)

  /** The class `[^\s@]` */
  predicate EmailChar(c: char)
  {
    !IsSpace(c) && c != '@'
  }

  predicate AllEmailChars(s: string)
  {
    forall k :: 0 <= k < |s| ==> EmailChar(s[k])
  }

  /** The regex read structurally: `s` splits at an `@` with index `i` and a `.` with index
      `j` into three non-empty runs of `[^\s@]`. */
  ghost predicate EmailRegexMatch(s: string)
  {
    exists i, j :: 0 < i && i + 1 < j && j + 1 < |s| && s[i] == '@' && s[j] == '.'
      && AllEmailChars(s[..i]) && AllEmailChars(s[i + 1..j]) && AllEmailChars(s[j + 1..])
  }

  /** `isValidEmail(s)`: no whitespace, exactly one `@` with something before it, and a
      domain with a `.` that is neither its first nor its last character. */
  predicate IsValidEmail(s: string)
  {
    var i := IndexOf(s, '@');
    && NoSpace(s)
    && 0 < i && i + 3 <= |s|
    && (forall k :: i < k < |s| ==> s[k] != '@')
    && '.' in s[i + 2..|s| - 1]
  }

  /** The direct scan accepts exactly the strings the regex matches. */
  lemma IsValidEmailIffRegex(s: string)
    ensures IsValidEmail(s) <==> EmailRegexMatch(s)
  {
    if IsValidEmail(s) {
      ValidEmailMatches(s);
    }
    if EmailRegexMatch(s) {
      var i, j :| 0 < i && i + 1 < j && j + 1 < |s| && s[i] == '@' && s[j] == '.'
        && AllEmailChars(s[..i]) && AllEmailChars(s[i + 1..j]) && AllEmailChars(s[j + 1..]);
      RegexSplitIsValidEmail(s, i, j);
    }
  }

  lemma ValidEmailMatches(s: string)
    requires IsValidEmail(s)
    ensures EmailRegexMatch(s)
  {
    var i := IndexOf(s, '@');
    var m := s[i + 2..|s| - 1];
    var d :| 0 <= d < |m| && m[d] == '.';
    var j := i + 2 + d;
    assert s[j] == '.';
    assert forall k :: 0 <= k < |s| && k != i ==> EmailChar(s[k]);
    assert AllEmailChars(s[..i]);
    assert AllEmailChars(s[i + 1..j]);
    assert AllEmailChars(s[j + 1..]);
  }

  lemma RegexSplitIsValidEmail(s: string, i: nat, j: nat)
    requires 0 < i && i + 1 < j && j + 1 < |s| && s[i] == '@' && s[j] == '.'
    requires AllEmailChars(s[..i]) && AllEmailChars(s[i + 1..j]) && AllEmailChars(s[j + 1..])
    ensures IsValidEmail(s)
  {
    forall k | 0 <= k < |s| ensures !IsSpace(s[k]) && (k != i ==> s[k] != '@') {
      if k < i {
        assert s[..i][k] == s[k];
      } else if i < k < j {
        assert s[i + 1..j][k - i - 1] == s[k];
      } else if j < k {
        assert s[j + 1..][k - j - 1] == s[k];
      }
    }
    assert IndexOf(s, '@') == i;
    assert s[i + 2..|s| - 1][j - i - 2] == '.';
  }

  // ---------------------------------------------------------------------------------------
  // /^[\+]?[\d\s\-\(\)]{10,}$/   (isValidPhone in the contact handler)

  /** The class `[\d\s\-\(\)]` */
  predicate PhoneChar(c: char)
  {
    IsDigit(c) || IsSpace(c) || c == '-' || c == '(' || c == ')'
  }

  /** The regex read structurally: either the optional `+` is absent and ten or more
      characters of the class follow, or it is present and they follow it. */
  ghost predicate PhoneRegexMatch(s: string)
  {
    || (|s| >= 10 && forall k :: 0 <= k < |s| ==> PhoneChar(s[k]))
    || (|s| >= 11 && s[0] == '+' && forall k :: 1 <= k < |s| ==> PhoneChar(s[k]))
  }

  /** `isValidPhone(s)`: after one optional leading `+` (of length `p`), at least ten
      characters, each a digit, whitespace, `-`, `(` or `)`. */
  predicate IsValidPhone(s: string)
  {
    var p := if s != [] && s[0] == '+' then 1 else 0;
    |s| - p >= 10 && forall k :: p <= k < |s| ==> PhoneChar(s[k])
  }

  lemma IsValidPhoneIffRegex(s: string)
    ensures IsValidPhone(s) <==> PhoneRegexMatch(s)
  {
    if s != [] && s[0] == '+' {
      // `+` is not in the class, so a leading `+` can only be the optional prefix
      assert !PhoneChar(s[0]);
    }
  }

  // ---------------------------------------------------------------------------------------
  // /^\d+(-\d+)?$/   (Contact.guestCount)

  ghost predicate GuestCountRegexMatch(s: string)
  {
    (s != [] && AllDigits(s))
    || exists h :: 0 < h < |s| - 1 && s[h] == '-' && AllDigits(s[..h]) && AllDigits(s[h + 1..])
  }

  /** A number of guests (`"50"`) or a range (`"50-100"`). */
  predicate IsGuestCount(s: string)
  {
    var h := IndexOf(s, '-');
    if h == |s| then s != [] && AllDigits(s)
    else 0 < h < |s| - 1 && AllDigits(s[..h]) && AllDigits(s[h + 1..])
  }

  lemma IsGuestCountIffRegex(s: string)
    ensures IsGuestCount(s) <==> GuestCountRegexMatch(s)
  {
    var h := IndexOf(s, '-');
    if GuestCountRegexMatch(s) && !(s != [] && AllDigits(s)) {
      var h' :| 0 < h' < |s| - 1 && s[h'] == '-' && AllDigits(s[..h']) && AllDigits(s[h' + 1..]);
      // `-` is not a digit, so the regex's hyphen is the first one
      assert h == h';
    }
    if IsGuestCount(s) && h < |s| {
      assert 0 < h < |s| - 1 && s[h] == '-';
    }
    if s != [] && AllDigits(s) {
      assert h == |s|;
    }
  }

  // ---------------------------------------------------------------------------------------
  // /^\w+([.-]?\w+)*@\w+([.-]?\w+)*(\.\w{2,3})+$/   (Inquiry.email)

  predicate IsSep(c: char)
  {
    c == '.' || c == '-'
  }

  predicate AllWord(s: string)
  {
    forall k :: 0 <= k < |s| ==> IsWordChar(s[k])
  }

  /** `\w+([.-]?\w+)*`: word characters in runs separated by single `.` or `-`, starting and
      ending with a word character. */
  predicate WordRuns(s: string)
  {
    && |s| > 0 && IsWordChar(s[0]) && IsWordChar(s[|s| - 1])
    && (forall k :: 0 <= k < |s| ==> IsWordChar(s[k]) || IsSep(s[k]))
    && (forall k :: 0 <= k < |s| - 1 ==> IsWordChar(s[k]) || IsWordChar(s[k + 1]))
  }

  /** `(\.\w{2,3})+`: one or more groups of a `.` and two or three word characters. */
  ghost predicate DotGroups(t: string)
    decreases |t|
  {
    && |t| >= 3 && t[0] == '.' && IsWordChar(t[1]) && IsWordChar(t[2])
    && (|t| == 3 || DotGroups(t[3..]) || (IsWordChar(t[3]) && (|t| == 4 || DotGroups(t[4..]))))
  }

  /** The domain half of the regex read structurally: word runs, then the dot groups. */
  ghost predicate DomainRegexMatch(d: string)
  {
    exists k :: 0 < k < |d| && WordRuns(d[..k]) && DotGroups(d[k..])
  }

  /** The domain half scanned directly: word runs ending in a `.` followed by two or three
      word characters (earlier dot groups are themselves word runs). */
  predicate InquiryDomain(d: string)
  {
    var n := |d|;
    || (n >= 4 && d[n - 3] == '.' && WordRuns(d[..n - 3]) && AllWord(d[n - 2..]))
    || (n >= 5 && d[n - 4] == '.' && WordRuns(d[..n - 4]) && AllWord(d[n - 3..]))
  }

  /** Appending a `.` and a word run keeps a string within `\w+([.-]?\w+)*`. */
  lemma WordRunsExtend(p: string, w: string)
    requires WordRuns(p) && |w| > 0 && AllWord(w)
    ensures WordRuns(p + ['.'] + w)
  {
    var s := p + ['.'] + w;
    forall k | 0 <= k < |s| - 1 ensures IsWordChar(s[k]) || IsWordChar(s[k + 1]) {
      if k < |p| - 1 {
        assert s[k] == p[k] && s[k + 1] == p[k + 1];
      } else if k == |p| - 1 {
        assert s[k] == p[|p| - 1];
      } else {
        assert s[k + 1] == w[k + 1 - |p| - 1];
      }
    }
    forall k | 0 <= k < |s| ensures IsWordChar(s[k]) || IsSep(s[k]) {
      if k < |p| {
        assert s[k] == p[k];
      } else if k > |p| {
        assert s[k] == w[k - |p| - 1];
      }
    }
    assert s[|s| - 1] == w[|w| - 1];
  }

  lemma {:induction false} DomainFromSplit(d: string, k: nat)
    requires 0 < k < |d| && WordRuns(d[..k]) && DotGroups(d[k..])
    ensures InquiryDomain(d)
    decreases |d| - k
  {
    var t := d[k..];
    var n := |d|;
    if |t| == 3 {
      assert d[..n - 3] == d[..k];
      assert d[n - 2..] == t[1..];
    } else if |t| == 4 && IsWordChar(t[3]) && !DotGroups(t[3..]) {
      assert d[..n - 4] == d[..k];
      assert d[n - 3..] == t[1..];
    } else if DotGroups(t[3..]) {
      WordRunsExtend(d[..k], t[1..3]);
      assert d[..k] + ['.'] + t[1..3] == d[..k + 3];
      assert d[k + 3..] == t[3..];
      DomainFromSplit(d, k + 3);
    } else {
      assert |t| > 4 && IsWordChar(t[3]) && DotGroups(t[4..]);
      WordRunsExtend(d[..k], t[1..4]);
      assert d[..k] + ['.'] + t[1..4] == d[..k + 4];
      assert d[k + 4..] == t[4..];
      DomainFromSplit(d, k + 4);
    }
  }

  lemma DomainIffRegex(d: string)
    ensures InquiryDomain(d) <==> DomainRegexMatch(d)
  {
    if DomainRegexMatch(d) {
      var k :| 0 < k < |d| && WordRuns(d[..k]) && DotGroups(d[k..]);
      DomainFromSplit(d, k);
    }
    var n := |d|;
    if n >= 4 && d[n - 3] == '.' && WordRuns(d[..n - 3]) && AllWord(d[n - 2..]) {
      assert d[n - 3..][1] == d[n - 2..][0] && d[n - 3..][2] == d[n - 2..][1];
      assert DotGroups(d[n - 3..]);
    } else if n >= 5 && d[n - 4] == '.' && WordRuns(d[..n - 4]) && AllWord(d[n - 3..]) {
      var t := d[n - 4..];
      assert t[1] == d[n - 3..][0] && t[2] == d[n - 3..][1] && t[3] == d[n - 3..][2];
      assert DotGroups(t);
    }
  }

  /** The Inquiry email regex read structurally. */
  ghost predicate InquiryEmailRegexMatch(s: string)
  {
    exists a :: 0 <= a < |s| && s[a] == '@' && WordRuns(s[..a]) && DomainRegexMatch(s[a + 1..])
  }

  /** The Inquiry email check: word runs, an `@`, and a domain accepted by `InquiryDomain`. */
  predicate IsInquiryEmail(s: string)
  {
    var a := IndexOf(s, '@');
    a < |s| && WordRuns(s[..a]) && InquiryDomain(s[a + 1..])
  }

  lemma IsInquiryEmailIffRegex(s: string)
    ensures IsInquiryEmail(s) <==> InquiryEmailRegexMatch(s)
  {
    if IsInquiryEmail(s) {
      var a := IndexOf(s, '@');
      DomainIffRegex(s[a + 1..]);
    }
    if InquiryEmailRegexMatch(s) {
      var a' :| 0 <= a' < |s| && s[a'] == '@' && WordRuns(s[..a']) && DomainRegexMatch(s[a' + 1..]);
      RegexSplitIsInquiryEmail(s, a');
    }
  }

  lemma RegexSplitIsInquiryEmail(s: string, a: nat)
    requires a < |s| && s[a] == '@' && WordRuns(s[..a]) && DomainRegexMatch(s[a + 1..])
    ensures IsInquiryEmail(s)
  {
    // the local part is word runs, which hold no `@`
    assert forall k :: 0 <= k < a ==> s[k] == s[..a][k];
    assert IndexOf(s, '@') == a;
    DomainIffRegex(s[a + 1..]);
  }

  /** Every address the Inquiry schema accepts is also accepted by the contact handler's
      looser check (the converse fails, e.g. for "a@b.c"). */
  lemma InquiryEmailIsValidEmail(s: string)
    requires IsInquiryEmail(s)
    ensures IsValidEmail(s)
  {
    var a := IndexOf(s, '@');
    var d := s[a + 1..];
    InquiryDomainShape(d);
    assert forall k :: 0 <= k < |d| ==> d[k] == s[a + 1 + k];
    forall k | 0 <= k < |s| ensures !IsSpace(s[k]) && (a < k ==> s[k] != '@') {
      if k < a {
        assert s[..a][k] == s[k];
      } else if a < k {
        assert d[k - a - 1] == s[k];
      }
    }
    assert s[a + 2..|s| - 1] == d[1..|d| - 1];
  }

  /** A domain the Inquiry pattern accepts has at least four characters, all word characters
      or separators, and a `.` strictly inside it. */
  lemma InquiryDomainShape(d: string)
    requires InquiryDomain(d)
    ensures |d| >= 4
    ensures forall k :: 0 <= k < |d| ==> IsWordChar(d[k]) || IsSep(d[k])
    ensures '.' in d[1..|d| - 1]
  {
    var n := |d|;
    var dot := if n >= 4 && d[n - 3] == '.' && WordRuns(d[..n - 3]) && AllWord(d[n - 2..]) then n - 3 else n - 4;
    assert d[..dot][0] == d[0] && d[dot] == '.';
    forall k | 0 <= k < n ensures IsWordChar(d[k]) || IsSep(d[k]) {
      if k < dot {
        assert d[..dot][k] == d[k];
      } else if k > dot {
        assert d[dot + 1..][k - dot - 1] == d[k];
      }
    }
    assert d[1..n - 1][dot - 1] == '.';
  }

  /** "a@b.c" shows the two email checks differ: the contact handler accepts it and the
      Inquiry schema refuses it (its last group has one character). */
  lemma EmailChecksDiffer()
    ensures IsValidEmail("a@b.c") && !IsInquiryEmail("a@b.c")
  {
    assert IndexOf("a@b.c", '@') == 1;
    assert "a@b.c"[3..4] == ".";
  }

  // ---------------------------------------------------------------------------------------
  // /^[\+]?[1-9][\d]{0,15}$/   (Inquiry.phone)

  /** An optional `+`, a digit 1-9, then at most fifteen digits. */
  predicate IsInquiryPhone(s: string)
  {
    var t := if s != [] && s[0] == '+' then s[1..] else s;
    1 <= |t| <= 16 && '1' <= t[0] <= '9' && AllDigits(t)
  }

  /** An Inquiry phone number with at least ten digits also passes the contact handler's
      looser check; the converse fails (the looser check allows spaces, hyphens, parentheses
      and a leading 0). */
  lemma InquiryPhoneIsValidPhone(s: string)
    requires IsInquiryPhone(s)
    requires |s| - (if s[0] == '+' then 1 else 0) >= 10
    ensures IsValidPhone(s)
  {
    var t := if s[0] == '+' then s[1..] else s;
    var p := if s[0] == '+' then 1 else 0;
    assert forall k :: p <= k < |s| ==> s[k] == t[k - p];
  }
}
