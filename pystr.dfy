/** The three Python `str` builtins the scorer and the record builders rely on:
    `str.lower()`, `str.strip()` and the `<` order that `sorted` uses.
    Characters are modelled on the ASCII range (see README, "Left out"). */
module PyStr {

  // ---------- str.lower() ----------

  predicate IsUpper(c: char) {
    'A' <= c <= 'Z'
  }

  function LowerChar(c: char): (d: char)
    ensures !IsUpper(d)
    ensures IsUpper(c) ==> d as int == c as int + 32
    ensures !IsUpper(c) ==> d == c
  {
    if IsUpper(c) then (c as int + 32) as char else c
  }

  /** `s.lower()`: every ASCII capital replaced by its small letter. */
  function Lower(s: string): (t: string)
    ensures |t| == |s|
    ensures forall i :: 0 <= i < |s| ==> t[i] == LowerChar(s[i])
  {
    seq(|s|, i requires 0 <= i < |s| => LowerChar(s[i]))
  }

  predicate HasNoUpper(s: string) {
    forall i :: 0 <= i < |s| ==> !IsUpper(s[i])
  }

  /** Lowering is idempotent, leaves no capital behind, and fixes exactly
      the strings that have none. */
  lemma LowerIdempotent(s: string)
    ensures HasNoUpper(Lower(s))
    ensures Lower(Lower(s)) == Lower(s)
    ensures Lower(s) == s <==> HasNoUpper(s)
  {
    if Lower(s) == s {
      forall i | 0 <= i < |s| ensures !IsUpper(s[i]) {
        assert s[i] == Lower(s)[i];
      }
    }
  }

  /** Two strings have the same lowercase form exactly when they agree
      letter by letter up to case. */
  lemma LowerEqualIff(a: string, b: string)
    ensures Lower(a) == Lower(b) <==>
      |a| == |b| && forall i :: 0 <= i < |a| ==> LowerChar(a[i]) == LowerChar(b[i])
  {
    if |a| == |b| && forall i :: 0 <= i < |a| ==> LowerChar(a[i]) == LowerChar(b[i]) {
      assert forall i :: 0 <= i < |a| ==> Lower(a)[i] == Lower(b)[i];
    }
  }

  // ---------- str.strip() ----------

  /** `c.isspace()` on the ASCII range: tab, line feed, vertical tab, form
      feed, carriage return, the four separators U+001C..U+001F, and space. */
  predicate IsSpace(c: char)
    ensures IsSpace(c) <==>
      c in {'\t', '\n', '\U{0B}', '\U{0C}', '\r', '\U{1C}', '\U{1D}', '\U{1E}', '\U{1F}', ' '}
  {
    ('\t' <= c <= '\r') || ('\U{1C}' <= c <= ' ')
  }

  predicate AllSpace(s: string) {
    forall k :: 0 <= k < |s| ==> IsSpace(s[k])
  }

  /** Neither end of `t` is whitespace. */
  predicate IsStripped(t: string) {
    t == [] || (!IsSpace(t[0]) && !IsSpace(t[|t| - 1]))
  }

  /** Index of the first character that is not whitespace (|s| if none). */
  function FirstNonSpace(s: string): (i: nat)
    ensures i <= |s|
    ensures AllSpace(s[..i])
    ensures i < |s| ==> !IsSpace(s[i])
  {
    if |s| == 0 || !IsSpace(s[0]) then 0
    else
      var i' := FirstNonSpace(s[1..]);
      assert s[..1 + i'] == [s[0]] + s[1..][..i'];
      1 + i'
  }

  /** One past the last character that is not whitespace (0 if none). */
  function EndNonSpace(s: string): (j: nat)
    ensures j <= |s|
    ensures AllSpace(s[j..])
    ensures j > 0 ==> !IsSpace(s[j - 1])
  {
    if |s| == 0 || !IsSpace(s[|s| - 1]) then |s|
    else
      var t := s[..|s| - 1];
      var j := EndNonSpace(t);
      assert AllSpace(s[j..]) by {
        forall k | 0 <= k < |s| - j ensures IsSpace(s[j..][k]) {
          if j + k < |t| { assert s[j..][k] == t[j..][k]; }
        }
      }
      j
  }

  /** `s.strip()`: `s` without its leading and trailing whitespace. */
  function Strip(s: string): (t: string)
    ensures IsStripped(t)
    ensures |t| <= |s|
    ensures t == [] <==> AllSpace(s)
  {
    var i, j := FirstNonSpace(s), EndNonSpace(s);
    if i == |s| then
      assert s[..i] == s;
      ""
    else
      s[i..j]
  }

  lemma {:induction false} FirstNonSpaceOfPadded(a: string, t: string)
    requires AllSpace(a) && (t == [] || !IsSpace(t[0]))
    ensures FirstNonSpace(a + t) == |a|
    decreases |a|
  {
    if a != [] {
      assert (a + t)[1..] == a[1..] + t;
      FirstNonSpaceOfPadded(a[1..], t);
    }
  }

  lemma {:induction false} EndNonSpaceOfPadded(t: string, b: string)
    requires AllSpace(b) && (t == [] || !IsSpace(t[|t| - 1]))
    ensures EndNonSpace(t + b) == |t|
    decreases |b|
  {
    if b != [] {
      assert (t + b)[..|t + b| - 1] == t + b[..|b| - 1];
      EndNonSpaceOfPadded(t, b[..|b| - 1]);
    }
  }

  /** `strip` is characterised by its result: whatever a stripped `t` is
      padded with on either side, stripping gives back `t`. */
  lemma StripPadded(a: string, t: string, b: string)
    requires AllSpace(a) && AllSpace(b) && IsStripped(t)
    ensures Strip(a + t + b) == t
  {
    var s := a + t + b;
    if t == [] {
      assert AllSpace(s) by {
        forall k | 0 <= k < |s| ensures IsSpace(s[k]) {
          if k < |a| { assert s[k] == a[k]; } else { assert s[k] == b[k - |a|]; }
        }
      }
    } else {
      assert s == a + (t + b);
      FirstNonSpaceOfPadded(a, t + b);
      EndNonSpaceOfPadded(a + t, b);
      assert s[|a|..|a| + |t|] == t;
    }
  }

  lemma ConcatSlices(s: string, i: nat, j: nat)
    requires i <= j <= |s|
    ensures s == s[..i] + s[i..j] + s[j..]
  {
    assert s[..i] + s[i..j] == s[..j];
  }

  /** Every string splits into leading whitespace, its strip, and trailing
      whitespace. */
  lemma StripSplits(s: string)
    ensures exists a: string, b: string :: s == a + Strip(s) + b && AllSpace(a) && AllSpace(b)
  {
    var i, j := FirstNonSpace(s), EndNonSpace(s);
    if i == |s| {
      var a, b: string := s, [];
      assert Strip(s) == [] && AllSpace(a) && AllSpace(b);
      assert s == a + Strip(s) + b;
    } else {
      assert i < j;
      ConcatSlices(s, i, j);
      var a, b := s[..i], s[j..];
      assert AllSpace(a) && AllSpace(b);
    }
  }

  /** A string with no whitespace at either end is left as it is. */
  lemma StripOfStripped(t: string)
    requires IsStripped(t)
    ensures Strip(t) == t
  {
    assert t == [] + t + [];
    StripPadded([], t, []);
  }

  /** Stripping twice is stripping once. */
  lemma StripIdempotent(s: string)
    ensures Strip(Strip(s)) == Strip(s)
  {
    assert Strip(s) == [] + Strip(s) + [];
    StripPadded([], Strip(s), []);
  }

  // ---------- str < str ----------

  /** `a` is a proper prefix of `b`. */
  predicate ProperPrefix(a: string, b: string) {
    |a| < |b| && a == b[..|a|]
  }

  /** `a` and `b` agree before position `i` and `a` is smaller there. */
  predicate SmallerAt(a: string, b: string, i: int) {
    0 <= i < |a| && i < |b| && a[..i] == b[..i] && a[i] < b[i]
  }

  /** Lexicographic order by code point: a proper prefix comes first, and
      otherwise the first differing character decides. */
  ghost predicate Lexicographic(a: string, b: string) {
    ProperPrefix(a, b) || exists i :: SmallerAt(a, b, i)
  }

  /** Python's `a < b` on `str`: lexicographic by code point, a proper prefix
      first. This is the order `sorted` puts strings in. */
  predicate Less(a: string, b: string)
    ensures Less(a, b) <==> Lexicographic(a, b)
    decreases |a|
  {
    if |b| == 0 then false
    else if |a| == 0 then true
    else if a[0] == b[0] then
      LexicographicShift(a, b);
      Less(a[1..], b[1..])
    else
      LexicographicHeads(a, b);
      a[0] < b[0]
  }

  lemma ProperPrefixShift(a: string, b: string)
    requires |a| > 0 && |b| > 0 && a[0] == b[0]
    ensures ProperPrefix(a, b) <==> ProperPrefix(a[1..], b[1..])
  {
    if ProperPrefix(a[1..], b[1..]) {
      assert a == [a[0]] + a[1..] && b[..|a|] == [b[0]] + b[1..][..|a| - 1];
    }
  }

  lemma SmallerAtShift(a: string, b: string, i: int)
    requires |a| > 0 && |b| > 0 && a[0] == b[0] && i > 0
    ensures SmallerAt(a, b, i) <==> SmallerAt(a[1..], b[1..], i - 1)
  {
    if 0 < i <= |a| && i <= |b| {
      assert a[..i] == [a[0]] + a[1..][..i - 1];
      assert b[..i] == [b[0]] + b[1..][..i - 1];
    }
  }

  /** With equal first characters, the order of two strings is the order of
      their tails. */
  lemma LexicographicShift(a: string, b: string)
    requires |a| > 0 && |b| > 0 && a[0] == b[0]
    ensures Lexicographic(a, b) <==> Lexicographic(a[1..], b[1..])
  {
    ProperPrefixShift(a, b);
    if exists i :: SmallerAt(a, b, i) {
      var i :| SmallerAt(a, b, i);
      assert i > 0;
      SmallerAtShift(a, b, i);
    }
    if exists i :: SmallerAt(a[1..], b[1..], i) {
      var i :| SmallerAt(a[1..], b[1..], i);
      SmallerAtShift(a, b, i + 1);
    }
  }

  /** With different first characters, the first difference is at the start. */
  lemma LexicographicHeads(a: string, b: string)
    requires |a| > 0 && |b| > 0 && a[0] != b[0]
    ensures Lexicographic(a, b) <==> a[0] < b[0]
  {
    if a[0] < b[0] {
      assert SmallerAt(a, b, 0);
    }
    forall i | 0 < i <= |a| && i <= |b| ensures a[..i] != b[..i] {
      assert a[..i][0] != b[..i][0];
    }
  }

  lemma {:induction false} LessIrreflexive(a: string)
    ensures !Less(a, a)
    decreases |a|
  {
    if |a| > 0 { LessIrreflexive(a[1..]); }
  }

  lemma {:induction false} LessTransitive(a: string, b: string, c: string)
    requires Less(a, b) && Less(b, c)
    ensures Less(a, c)
    decreases |a|
  {
    if |a| > 0 && a[0] == b[0] && b[0] == c[0] {
      LessTransitive(a[1..], b[1..], c[1..]);
    }
  }

  lemma {:induction false} LessTotal(a: string, b: string)
    requires a != b
    ensures Less(a, b) || Less(b, a)
    decreases |a|
  {
    if |a| > 0 && |b| > 0 && a[0] == b[0] {
      assert a == [a[0]] + a[1..] && b == [b[0]] + b[1..];
      LessTotal(a[1..], b[1..]);
    }
  }

  lemma LessAsymmetric(a: string, b: string)
    requires Less(a, b)
    ensures !Less(b, a)
  {
    if Less(b, a) {
      LessTransitive(a, b, a);
      LessIrreflexive(a);
    }
  }
}
