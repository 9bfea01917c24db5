/**
 * The JavaScript string built-ins the source relies on, over `seq<char>`:
 * `toLowerCase` / `toUpperCase` (ASCII letters only), `includes`, `trim`
 * (the exact set of characters ECMAScript calls WhiteSpace and
 * LineTerminator) and the order in which `Array.prototype.sort` with no
 * comparator puts strings (lexicographic by character, over code points).
 */
module Text {

  type String = seq<char>

  function LowerChar(c: char): char {
    if 'A' <= c <= 'Z' then (c as int + 32) as char else c
  }

  function UpperChar(c: char): char {
    if 'a' <= c <= 'z' then (c as int - 32) as char else c
  }

  /** `String.prototype.toLowerCase`, restricted to the ASCII letters. */
  function ToLower(s: String): (r: String)
    ensures |r| == |s|
    ensures forall i :: 0 <= i < |s| ==> r[i] == LowerChar(s[i])
  {
    seq(|s|, i requires 0 <= i < |s| => LowerChar(s[i]))
  }

  /** `t` occurs in `s` starting at index `i`. */
  predicate OccursAt(s: String, t: String, i: nat) {
    i + |t| <= |s| && s[i..i + |t|] == t
  }

  /** `String.prototype.includes`: `t` is a contiguous piece of `s`. */
  predicate Includes(s: String, t: String)
    decreases |s|
  {
    if t <= s then true
    else if |s| == 0 then false
    else Includes(s[1..], t)
  }

  /** Moving one character along `s` moves every occurrence one index back. */
  lemma OccursAtShift(s: String, t: String, i: nat)
    requires |s| > 0
    ensures OccursAt(s, t, i + 1) <==> OccursAt(s[1..], t, i)
  {
    if i + 1 + |t| <= |s| {
      assert s[1..][i..i + |t|] == s[i + 1..i + 1 + |t|];
    }
  }

  /** `Includes` holds exactly when `t` occurs at some position of `s`. */
  lemma {:induction false} IncludesIffOccurs(s: String, t: String)
    ensures Includes(s, t) <==> exists i: nat :: OccursAt(s, t, i)
    decreases |s|
  {
    if t <= s {
      assert OccursAt(s, t, 0);
    } else if |s| == 0 {
      forall i: nat ensures !OccursAt(s, t, i) {
      }
    } else {
      IncludesIffOccurs(s[1..], t);
      forall i: nat ensures OccursAt(s, t, i + 1) <==> OccursAt(s[1..], t, i) {
        OccursAtShift(s, t, i);
      }
      assert OccursAt(s, t, 0) <==> t <= s;
      if Includes(s[1..], t) {
        var i: nat :| OccursAt(s[1..], t, i);
        assert OccursAt(s, t, i + 1);
      } else {
        forall i: nat ensures !OccursAt(s, t, i) {
          if i > 0 {
            assert OccursAt(s, t, (i - 1) + 1) <==> OccursAt(s[1..], t, i - 1);
          }
        }
      }
    }
  }

  /** Every string includes itself; in particular equal strings include each other. */
  lemma IncludesSelf(s: String)
    ensures Includes(s, s)
  {
  }

  /** Every string includes the empty string. */
  lemma IncludesEmpty(s: String)
    ensures Includes(s, [])
  {
  }

  /** Index of the first occurrence of character `c` in `s`. */
  function IndexOf(s: String, c: char): (r: nat)
    requires c in s
    ensures r < |s| && s[r] == c
  {
    if s[0] == c then 0 else 1 + IndexOf(s[1..], c)
  }

  /** No earlier character is `c`. */
  lemma {:induction false} IndexOfFirst(s: String, c: char)
    requires c in s
    ensures forall j :: 0 <= j < IndexOf(s, c) ==> s[j] != c
    decreases |s|
  {
    if s[0] != c {
      IndexOfFirst(s[1..], c);
    }
  }

  /** The characters ECMAScript's `trim` removes: WhiteSpace (including every
      Unicode space separator) and LineTerminator. */
  predicate IsWhitespace(c: char) {
    || c == '\t' || c == '\n' || c == '\U{000B}' || c == '\U{000C}' || c == '\r'
    || c == ' ' || c == '\U{00A0}' || c == '\U{1680}'
    || ('\U{2000}' <= c <= '\U{200A}')
    || c == '\U{2028}' || c == '\U{2029}' || c == '\U{202F}' || c == '\U{205F}'
    || c == '\U{3000}' || c == '\U{FEFF}'
  }

  /** Drops the leading whitespace. */
  function TrimStart(s: String): String
    decreases |s|
  {
    if |s| > 0 && IsWhitespace(s[0]) then TrimStart(s[1..]) else s
  }

  /** The result is the suffix of `s` that starts at its first
      non-whitespace character. */
  lemma {:induction false} TrimStartMeaning(s: String)
    ensures var r := TrimStart(s);
            && |r| <= |s| && r == s[|s| - |r|..]
            && (forall i :: 0 <= i < |s| - |r| ==> IsWhitespace(s[i]))
            && (r == [] || !IsWhitespace(r[0]))
    decreases |s|
  {
    if |s| > 0 && IsWhitespace(s[0]) {
      TrimStartMeaning(s[1..]);
    }
  }

  /** Drops the trailing whitespace. */
  function TrimEnd(s: String): String
    decreases |s|
  {
    if |s| > 0 && IsWhitespace(s[|s| - 1]) then TrimEnd(s[..|s| - 1]) else s
  }

  /** The result is the prefix of `s` that ends at its last non-whitespace
      character. */
  lemma {:induction false} TrimEndMeaning(s: String)
    ensures var r := TrimEnd(s);
            && |r| <= |s| && r == s[..|r|]
            && (forall i :: |r| <= i < |s| ==> IsWhitespace(s[i]))
            && (r == [] || !IsWhitespace(r[|r| - 1]))
    decreases |s|
  {
    if |s| > 0 && IsWhitespace(s[|s| - 1]) {
      TrimEndMeaning(s[..|s| - 1]);
    }
  }

  /** `String.prototype.trim`. */
  function Trim(s: String): String {
    TrimEnd(TrimStart(s))
  }

  /** The trimmed text is a piece of the original with only whitespace
      around it, and it neither starts nor ends with whitespace. */
  lemma TrimMeaning(s: String)
    ensures var r := Trim(s);
            && (r == [] || (!IsWhitespace(r[0]) && !IsWhitespace(r[|r| - 1])))
            && exists a, b :: 0 <= a <= b <= |s| && r == s[a..b] &&
                              (forall i :: 0 <= i < a ==> IsWhitespace(s[i])) &&
                              (forall i :: b <= i < |s| ==> IsWhitespace(s[i]))
  {
    var t := TrimStart(s);
    var r := TrimEnd(t);
    TrimStartMeaning(s);
    TrimEndMeaning(t);
    assert r == s[|s| - |t|..|s| - |t| + |r|];
  }

  /** Trimming a string that has no whitespace at either end leaves it as it is. */
  lemma TrimUntouched(s: String)
    requires s == [] || (!IsWhitespace(s[0]) && !IsWhitespace(s[|s| - 1]))
    ensures Trim(s) == s
  {
  }

  /** The default order of `Array.prototype.sort` on strings, lexicographic
      with a proper prefix first, taken over Dafny characters (Unicode code
      points); the runtime compares UTF-16 code units, which orders strings
      the same way unless they hold characters outside the Basic
      Multilingual Plane. */
  predicate Less(a: String, b: String)
    decreases |a|
  {
    if |a| == 0 then |b| > 0
    else if |b| == 0 then false
    else if a[0] != b[0] then a[0] < b[0]
    else Less(a[1..], b[1..])
  }

  lemma {:induction false} LessIrreflexive(a: String)
    ensures !Less(a, a)
    decreases |a|
  {
    if |a| > 0 {
      LessIrreflexive(a[1..]);
    }
  }

  lemma {:induction false} LessAsymmetric(a: String, b: String)
    ensures Less(a, b) ==> !Less(b, a)
    decreases |a|
  {
    if |a| > 0 && |b| > 0 && a[0] == b[0] {
      LessAsymmetric(a[1..], b[1..]);
    }
  }

  lemma {:induction false} LessTransitive(a: String, b: String, c: String)
    requires Less(a, b) && Less(b, c)
    ensures Less(a, c)
    decreases |a|
  {
    if |a| > 0 && a[0] == b[0] && b[0] == c[0] {
      LessTransitive(a[1..], b[1..], c[1..]);
    }
  }

  lemma {:induction false} LessTotal(a: String, b: String)
    requires a != b
    ensures Less(a, b) || Less(b, a)
    decreases |a|
  {
    if |a| > 0 && |b| > 0 && a[0] == b[0] {
      assert a == [a[0]] + a[1..] && b == [b[0]] + b[1..];
      LessTotal(a[1..], b[1..]);
    }
  }
}
