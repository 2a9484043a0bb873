/** String primitives the console relies on, with JavaScript's meaning:
    the white-space class shared by `String.prototype.trim` and the regular
    expression escapes `\s`/`\S`, `trim`, `toLowerCase` (restricted to the
    Latin-1 range), `includes`, and the unanchored e-mail test
    `/\S+@\S+\.\S+/.test(s)`. */
module Text {

  /** JavaScript white space: WhiteSpace and LineTerminator of ECMA-262,
      the set that both `trim` and `\s` use. */
  predicate IsSpace(c: char) {
    ('\t' <= c <= '\r') || c == ' ' || c == '\U{00A0}' || c == '\U{1680}' ||
    ('\U{2000}' <= c <= '\U{200A}') || c == '\U{2028}' || c == '\U{2029}' ||
    c == '\U{202F}' || c == '\U{205F}' || c == '\U{3000}' || c == '\U{FEFF}'
  }

  /** Every character of `t` is matched by `\S`. */
  predicate NoSpace(t: string) {
    forall i :: 0 <= i < |t| ==> !IsSpace(t[i])
  }

  /** A string made only of white space (the empty string included). */
  predicate IsBlank(t: string) {
    forall i :: 0 <= i < |t| ==> IsSpace(t[i])
  }

  /** `s` with its leading white space removed. */
  function TrimStart(s: string): string
    decreases |s|
  {
    if s != [] && IsSpace(s[0]) then TrimStart(s[1..]) else s
  }

  /** `s` with its trailing white space removed. */
  function TrimEnd(s: string): string
    decreases |s|
  {
    if s != [] && IsSpace(s[|s| - 1]) then TrimEnd(s[..|s| - 1]) else s
  }

  /** `s.trim()`. */
  function Trim(s: string): string {
    TrimEnd(TrimStart(s))
  }

  /** TrimStart keeps the longest suffix of `s` that does not start with
      white space; everything it cuts off is white space. */
  lemma {:induction false} TrimStartSpec(s: string)
    ensures var r := TrimStart(s);
      |r| <= |s| && r == s[|s| - |r|..] &&
      (forall i :: 0 <= i < |s| - |r| ==> IsSpace(s[i])) &&
      (r != [] ==> !IsSpace(r[0]))
    decreases |s|
  {
    if s != [] && IsSpace(s[0]) {
      TrimStartSpec(s[1..]);
    }
  }

  /** TrimEnd keeps the longest prefix of `s` that does not end with white
      space; everything it cuts off is white space. */
  lemma {:induction false} TrimEndSpec(s: string)
    ensures var r := TrimEnd(s);
      |r| <= |s| && r == s[..|r|] &&
      (forall i :: |r| <= i < |s| ==> IsSpace(s[i])) &&
      (r != [] ==> !IsSpace(r[|r| - 1]))
    decreases |s|
  {
    if s != [] && IsSpace(s[|s| - 1]) {
      TrimEndSpec(s[..|s| - 1]);
    }
  }

  /** Trim yields a contiguous slice of `s` that neither starts nor ends with
      white space, and it is empty (so `!s.trim()` holds) exactly when `s` is
      blank. */
  lemma TrimSpec(s: string)
    ensures exists k :: OccursAt(s, Trim(s), k)
    ensures Trim(s) != [] ==> !IsSpace(Trim(s)[0]) && !IsSpace(Trim(s)[|Trim(s)| - 1])
    ensures Trim(s) == [] <==> IsBlank(s)
  {
    var t := TrimStart(s);
    TrimStartSpec(s);
    TrimEndSpec(t);
    var r, k := TrimEnd(t), |s| - |t|;
    assert Trim(s) == r;
    assert t == s[k..] && r == t[..|r|];
    forall i | 0 <= i < |r| ensures s[k..k + |r|][i] == r[i] {
      assert r[i] == t[i] == s[k + i];
    }
    assert OccursAt(s, r, k);
  }

  /** `String.prototype.toLowerCase` on one character, restricted to the
      ASCII and Latin-1 Supplement upper-case letters (U+00D7 is the
      multiplication sign and has no lower-case form); every other character
      is left unchanged. */
  function LowerChar(c: char): (l: char)
    ensures ('A' <= c <= 'Z') ==> l as int == c as int + 32
    ensures ('\U{00C0}' <= c <= '\U{00DE}' && c != '\U{00D7}') ==> l as int == c as int + 32
    ensures (!('A' <= c <= 'Z') && !('\U{00C0}' <= c <= '\U{00DE}')) || c == '\U{00D7}' ==> l == c
    ensures !('A' <= l <= 'Z') && !('\U{00C0}' <= l <= '\U{00DE}' && l != '\U{00D7}')
  {
    if ('A' <= c <= 'Z') || ('\U{00C0}' <= c <= '\U{00DE}' && c != '\U{00D7}')
    then (c as int + 32) as char
    else c
  }

  /** `s.toLowerCase()`, character by character. */
  function Lower(s: string): (r: string)
  {
    seq(|s|, i requires 0 <= i < |s| => LowerChar(s[i]))
  }

  /** `t` is the lowered form of `s` when it agrees with it character by character. */
  lemma LowerIs(s: string, t: string)
    requires |s| == |t| && forall i :: 0 <= i < |s| ==> LowerChar(s[i]) == t[i]
    ensures Lower(s) == t
  {
  }

  /** Lowering twice is lowering once. */
  lemma LowerIdempotent(s: string)
    ensures Lower(Lower(s)) == Lower(s)
  {
    assert forall i :: 0 <= i < |s| ==> LowerChar(LowerChar(s[i])) == LowerChar(s[i]);
  }

  /** `needle` occurs in `s` starting at index `i`. */
  predicate OccursAt(s: string, needle: string, i: int) {
    0 <= i && i + |needle| <= |s| && s[i..i + |needle|] == needle
  }

  /** `s.includes(needle)`: tries every start position from the left; the
      empty needle is found in every string. */
  function Includes(s: string, needle: string): (found: bool)
    ensures found <==> exists i :: OccursAt(s, needle, i)
    decreases |s|
  {
    if |needle| <= |s| && s[..|needle|] == needle then
      assert OccursAt(s, needle, 0);
      true
    else if s == [] then
      assert forall i :: !OccursAt(s, needle, i);
      false
    else
      var rest := Includes(s[1..], needle);
      assert forall i :: 1 <= i ==> (OccursAt(s, needle, i) <==> OccursAt(s[1..], needle, i - 1));
      assert !OccursAt(s, needle, 0);
      assert rest ==> exists i :: OccursAt(s, needle, i) by {
        if rest {
          var j :| OccursAt(s[1..], needle, j);
          assert OccursAt(s, needle, j + 1);
        }
      }
      rest
  }

  /** One match of `/\S+@\S+\.\S+/` at a concrete position: `s[p..at]`,
      `s[at+1..dot]` and `s[dot+1..e]` are non-empty runs of non-white-space
      characters, `s[at]` is '@' and `s[dot]` is '.'. */
  ghost predicate EmailMatchAt(s: string, p: int, at: int, dot: int, e: int) {
    0 <= p < at && at + 1 < dot && dot + 1 < e <= |s| &&
    s[at] == '@' && s[dot] == '.' &&
    NoSpace(s[p..at]) && NoSpace(s[at + 1..dot]) && NoSpace(s[dot + 1..e])
  }

  /** The regular expression `/\S+@\S+\.\S+/` (unanchored) matches somewhere in `s`. */
  ghost predicate EmailPatternMatches(s: string) {
    exists p, at, dot, e :: EmailMatchAt(s, p, at, dot, e)
  }

  /** What must follow the '@' of a match: at least one non-white-space
      character, a '.', and one more non-white-space character. Scans `t`
      from the left for the first '.' that completes it. */
  predicate DomainDot(t: string)
    decreases |t|
  {
    |t| >= 3 && !IsSpace(t[0]) && ((t[1] == '.' && !IsSpace(t[2])) || DomainDot(t[1..]))
  }

  /** `/\S+@\S+\.\S+/.test(s)`: scans `s` from the left for a non-white-space
      character followed by '@' after which DomainDot holds. Checking one
      character on each side of '@' and '.' suffices, since any longer match
      contains such a shortest one. */
  predicate EmailTest(s: string)
    decreases |s|
  {
    |s| >= 2 && ((!IsSpace(s[0]) && s[1] == '@' && DomainDot(s[2..])) || EmailTest(s[1..]))
  }

  /** `t[j]` is a '.' preceded by at least one character and followed by one,
      with no white space in `t[..j + 2]`. */
  ghost predicate DotAt(t: string, j: int) {
    1 <= j && j + 1 < |t| && t[j] == '.' && NoSpace(t[..j + 2])
  }

  /** `s[at]` is an '@' preceded by a non-white-space character and followed
      by a DomainDot. */
  ghost predicate AtSignAt(s: string, at: int) {
    1 <= at < |s| && s[at] == '@' && !IsSpace(s[at - 1]) && DomainDot(s[at + 1..])
  }

  /** DomainDot holds exactly when some '.' completes the domain part. */
  lemma {:induction false} DomainDotSpec(t: string)
    ensures DomainDot(t) <==> exists j :: DotAt(t, j)
    decreases |t|
  {
    if |t| >= 3 {
      var u := t[1..];
      DomainDotSpec(u);
      if DomainDot(t) {
        if t[1] == '.' && !IsSpace(t[2]) {
          assert DotAt(t, 1);
        } else {
          var j :| DotAt(u, j);
          var w, v := t[..j + 3], u[..j + 2];
          forall i | 0 <= i < j + 3 ensures !IsSpace(w[i]) {
            if i > 0 {
              assert w[i] == v[i - 1];
            }
          }
          assert DotAt(t, j + 1);
        }
      }
      if exists j :: DotAt(t, j) {
        var j :| DotAt(t, j);
        assert !IsSpace(t[0]) by { assert t[0] == t[..j + 2][0]; }
        if j == 1 {
          assert !IsSpace(t[2]) by { assert t[2] == t[..j + 2][2]; }
        } else {
          var w, v := u[..j + 1], t[..j + 2];
          forall i | 0 <= i < j + 1 ensures !IsSpace(w[i]) {
            assert w[i] == v[i + 1];
          }
          assert DotAt(u, j - 1);
        }
      }
    }
  }

  /** EmailTest holds exactly when some '@' starts a match. */
  lemma {:induction false} EmailTestSpec(s: string)
    ensures EmailTest(s) <==> exists at :: AtSignAt(s, at)
    decreases |s|
  {
    if |s| >= 2 {
      var u := s[1..];
      EmailTestSpec(u);
      if EmailTest(s) {
        if !IsSpace(s[0]) && s[1] == '@' && DomainDot(s[2..]) {
          assert AtSignAt(s, 1);
        } else {
          var at :| AtSignAt(u, at);
          assert u[at + 1..] == s[at + 2..];
          assert AtSignAt(s, at + 1);
        }
      }
      if exists at :: AtSignAt(s, at) {
        var at :| AtSignAt(s, at);
        if at >= 2 {
          assert u[at..] == s[at + 1..];
          assert AtSignAt(u, at - 1);
        }
      }
    }
  }

  /** EmailTest agrees with the regular expression's semantics on every string. */
  lemma EmailTestIsPattern(s: string)
    ensures EmailTest(s) <==> EmailPatternMatches(s)
  {
    EmailTestSpec(s);
    if EmailTest(s) {
      var at :| AtSignAt(s, at);
      var t := s[at + 1..];
      DomainDotSpec(t);
      var j :| DotAt(t, j);
      var dot := at + 1 + j;
      var w, v := s[at + 1..dot], t[..j + 2];
      forall i | 0 <= i < j ensures !IsSpace(w[i]) {
        assert w[i] == v[i];
      }
      assert !IsSpace(s[dot + 1]) by { assert s[dot + 1] == t[..j + 2][j + 1]; }
      assert s[dot] == t[j];
      assert EmailMatchAt(s, at - 1, at, dot, dot + 2);
    }
    if EmailPatternMatches(s) {
      var p, at, dot, e :| EmailMatchAt(s, p, at, dot, e);
      var t := s[at + 1..];
      var j := dot - at - 1;
      var w := t[..j + 2];
      forall i | 0 <= i < j + 2 ensures !IsSpace(w[i]) {
        if i < j {
          assert w[i] == s[at + 1..dot][i];
        } else if i == j + 1 {
          assert w[i] == s[dot + 1..e][0];
        }
      }
      assert DotAt(t, j);
      DomainDotSpec(t);
      assert s[at - 1] == s[p..at][at - 1 - p];
      assert AtSignAt(s, at);
    }
  }

  /** A string that passes the e-mail test is not blank. */
  lemma EmailTestNotBlank(s: string)
    ensures EmailTest(s) ==> !IsBlank(s)
  {
    EmailTestSpec(s);
    if EmailTest(s) {
      var at :| AtSignAt(s, at);
      assert !IsSpace(s[at]);
    }
  }
}
