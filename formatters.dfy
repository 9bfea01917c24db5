/**
 * Text formatting for documentation responses (`src/utils/formatters.ts`):
 * markup stripping, description truncation and field-name formatting.
 * Every operation is a chain of JavaScript string built-ins, and each
 * built-in is modelled as a function here.
 */
module Formatters {
  import opened Base
  import opened Text

  // ---------------------------------------------------------------------
  // stripHtml
  // ---------------------------------------------------------------------

  /** `.replace(/<[^>]*>/g, '')`: scanning left to right, a `<` that has a
      later `>` starts a span that runs to the first such `>` and is
      removed; a `<` with no later `>` is an ordinary character. */
  function RemoveTags(s: String): String
    decreases |s|
  {
    if |s| == 0 then []
    else if s[0] == '<' && '>' in s then RemoveTags(s[IndexOf(s, '>') + 1..])
    else [s[0]] + RemoveTags(s[1..])
  }

  /** Removing tags only drops characters. */
  lemma {:induction false} RemoveTagsShrinks(s: String)
    ensures |RemoveTags(s)| <= |s|
    ensures forall i :: 0 <= i < |RemoveTags(s)| ==> RemoveTags(s)[i] in s
    decreases |s|
  {
    if |s| > 0 {
      if s[0] == '<' && '>' in s {
        var rest := s[IndexOf(s, '>') + 1..];
        RemoveTagsShrinks(rest);
        forall i | 0 <= i < |RemoveTags(rest)| ensures RemoveTags(rest)[i] in s {
          var k :| 0 <= k < |rest| && rest[k] == RemoveTags(rest)[i];
          assert s[IndexOf(s, '>') + 1 + k] == rest[k];
        }
      } else {
        RemoveTagsShrinks(s[1..]);
        forall i | 0 <= i < |RemoveTags(s)| ensures RemoveTags(s)[i] in s {
          if i > 0 {
            var c := RemoveTags(s[1..])[i - 1];
            assert c in s[1..];
          }
        }
      }
    }
  }

  /** No `<` of `s` is followed, anywhere later, by a `>`: nothing the tag
      pattern could match is left. */
  predicate NoTagSpan(s: String) {
    forall i, j :: 0 <= i < j < |s| && s[i] == '<' ==> s[j] != '>'
  }

  lemma {:induction false} RemoveTagsLeavesNoSpan(s: String)
    ensures NoTagSpan(RemoveTags(s))
    decreases |s|
  {
    if |s| == 0 {
    } else if s[0] == '<' && '>' in s {
      RemoveTagsLeavesNoSpan(s[IndexOf(s, '>') + 1..]);
    } else {
      var t := RemoveTags(s[1..]);
      RemoveTagsLeavesNoSpan(s[1..]);
      if s[0] == '<' {
        RemoveTagsShrinks(s[1..]);
        forall k | 0 <= k < |t| ensures t[k] != '>' {
          var m :| 0 <= m < |s[1..]| && s[1..][m] == t[k];
          assert s[m + 1] == t[k];
        }
      }
      NoTagSpanCons(s[0], t);
    }
  }

  /** A character in front of a text without a tag span adds none unless it
      is a `<` followed somewhere by a `>`. */
  lemma NoTagSpanCons(c: char, t: String)
    requires NoTagSpan(t)
    requires c == '<' ==> forall k :: 0 <= k < |t| ==> t[k] != '>'
    ensures NoTagSpan([c] + t)
  {
    var r := [c] + t;
    forall i, j | 0 <= i < j < |r| && r[i] == '<' ensures r[j] != '>' {
      assert r[j] == t[j - 1];
      if i > 0 {
        assert r[i] == t[i - 1];
      }
    }
  }

  /** A text without any `<`, or without any `>`, has no tag to remove, so
      a `<` with no later `>` is kept. */
  lemma {:induction false} RemoveTagsNoTag(s: String)
    requires '<' !in s || '>' !in s
    ensures RemoveTags(s) == s
    decreases |s|
  {
    if |s| > 0 {
      assert '<' !in s[1..] || '>' !in s[1..];
      RemoveTagsNoTag(s[1..]);
    }
  }

  /** A `<` followed by a `>` loses everything up to and including the first
      such `>`. */
  lemma RemoveTagsDropsSpan(inside: String, rest: String)
    requires '>' !in inside
    ensures RemoveTags(['<'] + inside + ['>'] + rest) == RemoveTags(rest)
  {
    var s := ['<'] + inside + ['>'] + rest;
    assert s[|inside| + 1] == '>';
    var k := IndexOf(s, '>');
    IndexOfFirst(s, '>');
    assert k == |inside| + 1 by {
      forall j | 0 <= j < |inside| + 1 ensures s[j] != '>' {
        if j > 0 {
          assert s[j] == inside[j - 1];
        }
      }
    }
    assert s[k + 1..] == rest;
  }

  /** `.replace(/pattern/g, replacement)` for a literal pattern: occurrences
      found scanning left to right, never overlapping, each replaced once;
      the replacement text is not scanned again. */
  function ReplaceAll(s: String, pattern: String, replacement: String): (r: String)
    requires |pattern| > 0
    decreases |s|
  {
    if |s| == 0 then []
    else if pattern <= s then replacement + ReplaceAll(s[|pattern|..], pattern, replacement)
    else [s[0]] + ReplaceAll(s[1..], pattern, replacement)
  }

  /** Replacing a pattern that does not occur changes nothing. */
  lemma {:induction false} ReplaceAllAbsent(s: String, pattern: String, replacement: String)
    requires |pattern| > 0 && !Includes(s, pattern)
    ensures ReplaceAll(s, pattern, replacement) == s
    decreases |s|
  {
    if |s| > 0 {
      ReplaceAllAbsent(s[1..], pattern, replacement);
    }
  }

  /** The five named entities decoded as the source writes it: one pass per
      entity over the text the previous pass left, `&amp;` before `&quot;`. */
  function DecodeEntitiesAsWritten(s: String): String {
    var s1 := ReplaceAll(s, "&nbsp;", " ");
    var s2 := ReplaceAll(s1, "&lt;", "<");
    var s3 := ReplaceAll(s2, "&gt;", ">");
    var s4 := ReplaceAll(s3, "&amp;", "&");
    ReplaceAll(s4, "&quot;", "\"")
  }

  /** The entity decoding the stripping evidently intends: the same passes
      with `&amp;` decoded last, so the `&` it produces is never read again
      as the start of another entity. */
  function DecodeEntities(s: String): String {
    var s1 := ReplaceAll(s, "&nbsp;", " ");
    var s2 := ReplaceAll(s1, "&lt;", "<");
    var s3 := ReplaceAll(s2, "&gt;", ">");
    var s4 := ReplaceAll(s3, "&quot;", "\"");
    ReplaceAll(s4, "&amp;", "&")
  }

  /** `stripHtml`: tags removed, then entities decoded in the source's
      order, then trimmed. */
  function StripHtml(html: String): String {
    if html == [] then []
    else Trim(DecodeEntitiesAsWritten(RemoveTags(html)))
  }

  /** `stripHtml` with the decoding it evidently intends (`&amp;` last). */
  function StripHtmlIntended(html: String): String {
    if html == [] then []
    else Trim(DecodeEntities(RemoveTags(html)))
  }

  /** The stripped text is empty for an empty input and never starts or ends
      with whitespace. */
  lemma StripHtmlTrimmed(html: String)
    ensures html == [] ==> StripHtml(html) == []
    ensures var r := StripHtml(html); r == [] || (!IsWhitespace(r[0]) && !IsWhitespace(r[|r| - 1]))
  {
    if html != [] {
      TrimMeaning(DecodeEntitiesAsWritten(RemoveTags(html)));
    }
  }

  /** A pattern holding a character the text lacks does not occur in it. */
  lemma MissingCharNoMatch(s: String, pattern: String, k: nat)
    requires k < |pattern| && pattern[k] !in s
    ensures !Includes(s, pattern)
  {
    IncludesIffOccurs(s, pattern);
    forall i: nat ensures !OccursAt(s, pattern, i) {
      if i + |pattern| <= |s| {
        assert s[i..i + |pattern|][k] == s[i + k];
      }
    }
  }

  /** A pattern at the very start is replaced, and the scan resumes after it. */
  lemma ReplaceAllAtStart(pattern: String, rest: String, replacement: String)
    requires |pattern| > 0
    ensures ReplaceAll(pattern + rest, pattern, replacement) == replacement + ReplaceAll(rest, pattern, replacement)
  {
    assert (pattern + rest)[|pattern|..] == rest;
  }

  /** Text before which the pattern's first character never appears is
      copied as it is. */
  lemma {:induction false} ReplaceAllPlainPrefix(prefix: String, rest: String, pattern: String, replacement: String)
    requires |pattern| > 0 && pattern[0] !in prefix
    ensures ReplaceAll(prefix + rest, pattern, replacement) == prefix + ReplaceAll(rest, pattern, replacement)
    decreases |prefix|
  {
    if |prefix| > 0 {
      var t := prefix + rest;
      assert t[0] == prefix[0] && t[1..] == prefix[1..] + rest;
      assert pattern[0] != t[0];
      assert ReplaceAll(t, pattern, replacement) == [t[0]] + ReplaceAll(t[1..], pattern, replacement);
      ReplaceAllPlainPrefix(prefix[1..], rest, pattern, replacement);
      assert prefix == [prefix[0]] + prefix[1..];
    } else {
      assert prefix + rest == rest;
    }
  }

  /** Text with no markup, no entity and no surrounding whitespace passes
      through `stripHtml` unchanged. */
  lemma StripHtmlPlainText(s: String)
    requires '<' !in s && '&' !in s
    requires s == [] || (!IsWhitespace(s[0]) && !IsWhitespace(s[|s| - 1]))
    ensures StripHtml(s) == s
  {
    if s != [] {
      assert RemoveTags(s) == s by {
        assert forall k :: 0 <= k < |s| ==> s[k] != '<';
        RemoveTagsNoTag(s);
      }
      NoEntityNoChange(s);
      TrimUntouched(s);
    }
  }

  /** Decoding, in either order, leaves text without any `&` as it is. */
  lemma NoEntityNoChange(s: String)
    requires '&' !in s
    ensures DecodeEntitiesAsWritten(s) == s
    ensures DecodeEntities(s) == s
  {
    MissingCharNoMatch(s, "&nbsp;", 0);
    ReplaceAllAbsent(s, "&nbsp;", " ");
    MissingCharNoMatch(s, "&lt;", 0);
    ReplaceAllAbsent(s, "&lt;", "<");
    MissingCharNoMatch(s, "&gt;", 0);
    ReplaceAllAbsent(s, "&gt;", ">");
    MissingCharNoMatch(s, "&amp;", 0);
    ReplaceAllAbsent(s, "&amp;", "&");
    MissingCharNoMatch(s, "&quot;", 0);
    ReplaceAllAbsent(s, "&quot;", "\"");
  }

  /** The characters HTML text escapes, each written as a named entity. */
  const Escaped: set<char> := {'&', '<', '>', '"'}

  function Entity(c: char): (r: String)
    requires c in Escaped
    ensures |r| >= 4 && r[0] == '&' && '&' !in r[1..]
  {
    if c == '&' then "&amp;" else if c == '<' then "&lt;" else if c == '>' then "&gt;" else "&quot;"
  }

  /** Text with every character of `escaped` written as its entity. */
  function EscapeWith(t: String, escaped: set<char>): (r: String)
    requires escaped <= Escaped
  {
    if t == [] then []
    else (if t[0] in escaped then Entity(t[0]) else [t[0]]) + EscapeWith(t[1..], escaped)
  }

  /** HTML escaping of literal text: `&`, `<`, `>` and `"` written as entities. */
  function EscapeHtml(t: String): String {
    EscapeWith(t, Escaped)
  }

  /** A pass for an entity-shaped pattern steps over an entity it does not
      match without changing it. */
  lemma PassOverEntity(d: char, rest: String, pattern: String, replacement: String)
    requires d in Escaped && |pattern| >= 2 && pattern[0] == '&' && pattern[1] != Entity(d)[1]
    ensures ReplaceAll(Entity(d) + rest, pattern, replacement)
            == Entity(d) + ReplaceAll(rest, pattern, replacement)
  {
    var e := Entity(d);
    var s := e + rest;
    assert s[1] == e[1];
    assert s[1..] == e[1..] + rest;
    assert !(pattern <= s);
    ReplaceAllPlainPrefix(e[1..], rest, pattern, replacement);
    assert e == [e[0]] + e[1..];
  }

  /** A pass steps over any character other than the pattern's first. */
  lemma PassOverChar(x: char, rest: String, pattern: String, replacement: String)
    requires |pattern| > 0 && x != pattern[0]
    ensures ReplaceAll([x] + rest, pattern, replacement) == [x] + ReplaceAll(rest, pattern, replacement)
  {
    assert ([x] + rest)[1..] == rest;
  }

  /** While every `&` of the escaped text starts an entity (`&` is still
      escaped, or the text has none), the pass for the entity of `c` decodes
      exactly the escaped `c`s and touches nothing else. */
  lemma {:induction false} DecodePass(t: String, escaped: set<char>, c: char)
    requires escaped <= Escaped && c in escaped && ('&' in escaped || '&' !in t)
    ensures ReplaceAll(EscapeWith(t, escaped), Entity(c), [c]) == EscapeWith(t, escaped - {c})
    decreases |t|
  {
    if t != [] {
      var rest := EscapeWith(t[1..], escaped);
      assert '&' in escaped || '&' !in t[1..];
      DecodePass(t[1..], escaped, c);
      if t[0] == c {
        ReplaceAllAtStart(Entity(c), rest, [c]);
      } else if t[0] in escaped {
        PassOverEntity(t[0], rest, Entity(c), [c]);
      } else {
        PassOverChar(t[0], rest, Entity(c), [c]);
      }
    }
  }

  /** While `&` is still escaped the `&nbsp;` pass finds nothing. */
  lemma {:induction false} NbspPass(t: String, escaped: set<char>)
    requires escaped <= Escaped && '&' in escaped
    ensures ReplaceAll(EscapeWith(t, escaped), "&nbsp;", " ") == EscapeWith(t, escaped)
    decreases |t|
  {
    if t != [] {
      var rest := EscapeWith(t[1..], escaped);
      NbspPass(t[1..], escaped);
      if t[0] in escaped {
        PassOverEntity(t[0], rest, "&nbsp;", " ");
      } else {
        PassOverChar(t[0], rest, "&nbsp;", " ");
      }
    }
  }

  /** Escaping with nothing to escape is the identity. */
  lemma {:induction false} EscapeNothing(t: String, escaped: set<char>)
    requires escaped <= Escaped && forall i :: 0 <= i < |t| ==> t[i] !in escaped
    ensures EscapeWith(t, escaped) == t
    decreases |t|
  {
    if t != [] {
      EscapeNothing(t[1..], escaped);
    }
  }

  /** Decoding undoes HTML escaping: every text comes back exactly. */
  lemma DecodeEscapeHtml(t: String)
    ensures DecodeEntities(EscapeHtml(t)) == t
  {
    NbspPass(t, Escaped);
    DecodePass(t, Escaped, '<');
    assert Escaped - {'<'} == {'&', '>', '"'};
    DecodePass(t, {'&', '>', '"'}, '>');
    assert {'&', '>', '"'} - {'>'} == {'&', '"'};
    DecodePass(t, {'&', '"'}, '"');
    assert {'&', '"'} - {'"'} == {'&'};
    DecodePass(t, {'&'}, '&');
    assert {'&'} - {'&'} == {};
    EscapeNothing(t, {});
  }

  /** Decoding as written, applied to escaped text, ends with a `&quot;`
      pass over the text in which only `"` is still escaped. */
  lemma AsWrittenEscaped(t: String)
    ensures DecodeEntitiesAsWritten(EscapeHtml(t)) == ReplaceAll(EscapeWith(t, {'"'}), "&quot;", "\"")
  {
    NbspPass(t, Escaped);
    DecodePass(t, Escaped, '<');
    assert Escaped - {'<'} == {'&', '>', '"'};
    DecodePass(t, {'&', '>', '"'}, '>');
    assert {'&', '>', '"'} - {'>'} == {'&', '"'};
    DecodePass(t, {'&', '"'}, '&');
    assert {'&', '"'} - {'&'} == {'"'};
  }

  /** Decoding as written undoes HTML escaping for text without `&`. */
  lemma DecodeAsWrittenNoAmp(t: String)
    requires '&' !in t
    ensures DecodeEntitiesAsWritten(EscapeHtml(t)) == t
  {
    AsWrittenEscaped(t);
    DecodePass(t, {'"'}, '"');
    assert {'"'} - {'"'} == {};
    EscapeNothing(t, {});
  }

  /** The decoding as written reads the `&` that `&amp;` produces as the
      start of `&quot;`: the escaped form of the text `&quot;` decodes to a
      lone `"`. */
  lemma DecodeAsWrittenDecodesTwice()
    ensures EscapeHtml("&quot;") == "&amp;quot;"
    ensures DecodeEntitiesAsWritten(EscapeHtml("&quot;")) == "\""
  {
    var t := "&quot;";
    EscapeQuotEntity();
    AsWrittenEscaped(t);
    EscapeNothing(t, {'"'});
    ReplaceAllAtStart(t, [], "\"");
    assert t + [] == t;
  }

  lemma EscapeQuotEntity()
    ensures EscapeHtml("&quot;") == "&amp;quot;"
  {
    assert "&quot;" == ['&'] + "quot;";
    EscapeNothing("quot;", Escaped);
  }

  /** `stripHtml` as written turns the HTML for the text `&quot;` into a
      lone `"`. */
  lemma StripHtmlDecodesTwice()
    ensures StripHtml("&amp;quot;") == "\""
  {
    var t := "&quot;";
    EscapeQuotEntity();
    EscapeHtmlNoOpen(t);
    RemoveTagsNoTag(EscapeHtml(t));
    DecodeAsWrittenDecodesTwice();
    TrimUntouched("\"");
  }

  /** Escaped text without `&` contains no markup and no entity a pass can
      misread: `stripHtml` of it is the original text, trimmed. */
  lemma StripHtmlEscapedNoAmp(t: String)
    requires '&' !in t
    ensures StripHtml(EscapeHtml(t)) == Trim(t)
  {
    EscapeHtmlNoOpen(t);
    RemoveTagsNoTag(EscapeHtml(t));
    DecodeAsWrittenNoAmp(t);
  }

  /** With the intended decoding, stripping any escaped text gives back the
      text, trimmed. */
  lemma StripHtmlEscaped(t: String)
    ensures StripHtmlIntended(EscapeHtml(t)) == Trim(t)
  {
    EscapeHtmlNoOpen(t);
    RemoveTagsNoTag(EscapeHtml(t));
    DecodeEscapeHtml(t);
  }

  /** With the intended decoding the HTML for the text `&quot;` comes back
      as `&quot;`. */
  lemma StripHtmlIntendedDecodesOnce()
    ensures StripHtmlIntended("&amp;quot;") == "&quot;"
  {
    var t := "&quot;";
    EscapeQuotEntity();
    StripHtmlEscaped(t);
    TrimUntouched(t);
  }

  /** Tags go before entities are decoded, so an escaped tag comes out as a
      tag. */
  lemma StripHtmlKeepsEscapedTag()
    ensures StripHtml("&lt;b&gt;") == "<b>"
  {
    var t := "<b>";
    var s1 := "b>";
    var s2 := ">";
    assert EscapeWith(s2, Escaped) == "&gt;" by {
      assert s2[0] == '>' && s2[1..] == [];
    }
    assert EscapeWith(s1, Escaped) == "b&gt;" by {
      assert s1[0] == 'b' && s1[1..] == s2;
    }
    assert EscapeHtml(t) == "&lt;b&gt;" by {
      assert t[0] == '<' && t[1..] == s1;
    }
    StripHtmlEscapedNoAmp(t);
    TrimUntouched(t);
  }

  /** For escaped text without `"`, decoding as written is one `&quot;`
      pass over the original text: every `&quot;` the text holds is decoded
      although the text itself was escaped. */
  lemma DecodeAsWrittenNoQuote(t: String)
    requires '"' !in t
    ensures DecodeEntitiesAsWritten(EscapeHtml(t)) == ReplaceAll(t, "&quot;", "\"")
  {
    AsWrittenEscaped(t);
    EscapeNothing(t, {'"'});
  }

  /** `stripHtml` of escaped text without `"` decodes the text's own
      `&quot;`s and nothing else. */
  lemma StripHtmlEscapedNoQuote(t: String)
    requires '"' !in t
    ensures StripHtml(EscapeHtml(t)) == Trim(ReplaceAll(t, "&quot;", "\""))
  {
    EscapeHtmlNoOpen(t);
    RemoveTagsNoTag(EscapeHtml(t));
    DecodeAsWrittenNoQuote(t);
    if t == [] {
      assert ReplaceAll(t, "&quot;", "\"") == [];
    }
  }

  lemma QuotPassSkipsLt()
    ensures ReplaceAll("&lt;", "&quot;", "\"") == "&lt;"
  {
    MissingCharNoMatch("&lt;", "&quot;", 1);
    ReplaceAllAbsent("&lt;", "&quot;", "\"");
  }

  /** `&amp;lt;` is decoded once, to `&lt;`: the `&lt;` pass runs before the
      `&amp;` pass makes that text. */
  lemma StripHtmlDecodesOnce()
    ensures StripHtml("&amp;lt;") == "&lt;"
  {
    var t := "&lt;";
    assert EscapeHtml(t) == "&amp;lt;" by {
      assert t == ['&'] + "lt;";
      EscapeNothing("lt;", Escaped);
    }
    StripHtmlEscapedNoQuote(t);
    QuotPassSkipsLt();
    TrimUntouched(t);
  }

  lemma {:induction false} EscapeHtmlNoOpen(t: String)
    ensures '<' !in EscapeHtml(t)
    ensures EscapeHtml(t) == [] <==> t == []
    decreases |t|
  {
    if t != [] {
      EscapeHtmlNoOpen(t[1..]);
    }
  }

  // ---------------------------------------------------------------------
  // truncateDescription
  // ---------------------------------------------------------------------

  const DefaultMaxLength: int := 200

  /** `truncateDescription(description, maxLength = 200)`. */
  function TruncateDescription(description: String, maxLength: Option<int>): String {
    Shorten(StripHtml(description), maxLength.GetOr(DefaultMaxLength))
  }

  /** What `truncateDescription` does to the stripped text: keep it when it
      fits, else trim its first `limit` characters (`substring` clamps a
      negative length to 0) and append `...`. */
  function Shorten(plain: String, limit: int): String {
    if |plain| <= limit then plain
    else Trim(plain[..if limit < 0 then 0 else limit]) + "..."
  }

  /** `r` is what cutting `plain` to its first `cut` characters gives: those
      characters with the whitespace at both ends dropped, followed by
      `...`. */
  predicate CutOf(plain: String, cut: nat, r: String) {
    && cut <= |plain|
    && |r| >= 3 && r[|r| - 3..] == "..."
    && |r| <= cut + 3
    && var kept := r[..|r| - 3];
       && (kept == [] || (!IsWhitespace(kept[0]) && !IsWhitespace(kept[|kept| - 1])))
       && exists a, b :: 0 <= a <= b <= cut && kept == plain[a..b] &&
                         (forall i :: 0 <= i < a ==> IsWhitespace(plain[i])) &&
                         (forall i :: b <= i < cut ==> IsWhitespace(plain[i]))
  }

  /** The stripped text when it fits in `maxLength` characters; otherwise
      its first `maxLength` characters (none for a negative length), trimmed,
      followed by `...`. */
  lemma TruncateDescriptionMeaning(description: String, maxLength: Option<int>)
    ensures var limit := maxLength.GetOr(DefaultMaxLength);
            var plain := StripHtml(description);
            var r := TruncateDescription(description, maxLength);
            var cut := if limit < 0 then 0 else limit;
            && (|plain| <= limit ==> r == plain)
            && (|plain| > limit ==> r == Trim(plain[..cut]) + "..." && CutOf(plain, cut, r))
  {
    var limit := maxLength.GetOr(DefaultMaxLength);
    ShortenMeaning(StripHtml(description), limit);
  }

  lemma ShortenMeaning(plain: String, limit: int)
    ensures var r := Shorten(plain, limit);
            var cut := if limit < 0 then 0 else limit;
            && (|plain| <= limit ==> r == plain)
            && (|plain| > limit ==> r == Trim(plain[..cut]) + "..." && CutOf(plain, cut, r))
  {
    if |plain| > limit {
      TrimmedCut(plain, if limit < 0 then 0 else limit);
    }
  }

  /** The first `cut` characters of `plain`, trimmed, then `...`. */
  lemma TrimmedCut(plain: String, cut: nat)
    requires cut <= |plain|
    ensures CutOf(plain, cut, Trim(plain[..cut]) + "...")
  {
    var head := plain[..cut];
    var kept := Trim(head);
    TrimMeaning(head);
    var a, b :| 0 <= a <= b <= |head| && kept == head[a..b] &&
                (forall i :: 0 <= i < a ==> IsWhitespace(head[i])) &&
                (forall i :: b <= i < |head| ==> IsWhitespace(head[i]));
    assert kept == plain[a..b];
    forall i | 0 <= i < a
      ensures IsWhitespace(plain[i])
    {
      assert head[i] == plain[i];
    }
    forall i | b <= i < cut
      ensures IsWhitespace(plain[i])
    {
      assert head[i] == plain[i];
    }
    var r := kept + "...";
    assert r[..|r| - 3] == kept;
    assert r[|r| - 3..] == "...";
  }

  /** Leaving `maxLength` out is the same as passing 200. */
  lemma TruncateDescriptionDefault(description: String)
    ensures TruncateDescription(description, None) == TruncateDescription(description, Some(200))
  {
  }

  /** Characters before the first `<` are kept as they are. */
  lemma {:induction false} RemoveTagsPlainPrefix(prefix: String, rest: String)
    requires '<' !in prefix
    ensures RemoveTags(prefix + rest) == prefix + RemoveTags(rest)
    decreases |prefix|
  {
    if |prefix| > 0 {
      assert prefix == [prefix[0]] + prefix[1..];
      assert (prefix + rest)[0] == prefix[0] != '<';
      assert (prefix + rest)[1..] == prefix[1..] + rest;
      assert '<' !in prefix[1..];
      RemoveTagsPlainPrefix(prefix[1..], rest);
    } else {
      assert prefix + rest == rest;
    }
  }

  // ---------------------------------------------------------------------
  // formatFieldName
  // ---------------------------------------------------------------------

  /** `.replace(/[[\]]/g, '')`: every square bracket removed. */
  function RemoveBrackets(s: String): (r: String)
    ensures '[' !in r && ']' !in r
    ensures |r| <= |s|
    ensures '[' !in s && ']' !in s ==> r == s
  {
    if |s| == 0 then []
    else (if s[0] == '[' || s[0] == ']' then [] else [s[0]]) + RemoveBrackets(s[1..])
  }

  /** The characters `RemoveBrackets` keeps: all but the square brackets. */
  function NotBracket(): char -> bool {
    (c: char) => c != '[' && c != ']'
  }

  /** Removing the brackets keeps every other character, in order: it is the
      filter that drops `[` and `]`. */
  lemma {:induction false} RemoveBracketsIsFilter(s: String)
    ensures RemoveBrackets(s) == Filter(s, NotBracket())
    decreases |s|
  {
    if |s| > 0 {
      RemoveBracketsIsFilter(s[1..]);
    }
  }

  /** Brackets are removed piece by piece. */
  lemma {:induction false} RemoveBracketsAppend(a: String, b: String)
    ensures RemoveBrackets(a + b) == RemoveBrackets(a) + RemoveBrackets(b)
    decreases |a|
  {
    if |a| > 0 {
      assert (a + b)[1..] == a[1..] + b;
      RemoveBracketsAppend(a[1..], b);
    } else {
      assert a + b == b;
    }
  }

  /** `String.prototype.split(sep)` on one character: the pieces between
      separators, empty pieces included; there is always at least one piece. */
  function Split(s: String, sep: char): (parts: seq<String>)
    ensures |parts| >= 1
    ensures forall i :: 0 <= i < |parts| ==> sep !in parts[i]
  {
    if |s| == 0 then [[]]
    else
      var rest := Split(s[1..], sep);
      if s[0] == sep then [[]] + rest
      else [[s[0]] + rest[0]] + rest[1..]
  }

  /** `Array.prototype.join(sep)`. */
  function Join(parts: seq<String>, sep: String): String {
    if |parts| == 0 then []
    else if |parts| == 1 then parts[0]
    else parts[0] + sep + Join(parts[1..], sep)
  }

  /** Joining the pieces of a split with the separator gives the text back. */
  lemma {:induction false} JoinSplit(s: String, sep: char)
    ensures Join(Split(s, sep), [sep]) == s
  {
    if |s| > 0 {
      JoinSplit(s[1..], sep);
      var rest := Split(s[1..], sep);
      if s[0] == sep {
        assert ([[]] + rest)[1..] == rest;
      } else {
        var parts := [[s[0]] + rest[0]] + rest[1..];
        if |rest| > 1 {
          assert parts[1..] == rest[1..];
          assert Join(rest, [sep]) == rest[0] + [sep] + Join(rest[1..], [sep]);
        }
      }
    }
  }

  /** `part.charAt(0).toUpperCase() + part.slice(1)`. */
  function Capitalize(part: String): String {
    if part == [] then [] else [UpperChar(part[0])] + part[1..]
  }

  /** `.map(Capitalize)`. */
  function CapitalizeAll(parts: seq<String>): (r: seq<String>)
    ensures |r| == |parts|
  {
    if parts == [] then [] else [Capitalize(parts[0])] + CapitalizeAll(parts[1..])
  }

  /** `formatFieldName`. */
  function FormatFieldName(field: String): String {
    Join(CapitalizeAll(Split(RemoveBrackets(field), '.')), " ")
  }

  /** The formatted name, written character by character: a `.` becomes a
      space and the first character of every dot-separated part is upper-cased
      (`atStart` says whether the next character begins a part). */
  function Retitle(s: String, atStart: bool): (r: String)
    ensures |r| == |s|
  {
    if s == [] then []
    else if s[0] == '.' then [' '] + Retitle(s[1..], true)
    else [if atStart then UpperChar(s[0]) else s[0]] + Retitle(s[1..], false)
  }

  /** The parts after the first, each capitalised and preceded by a space. */
  function JoinTail(parts: seq<String>): String {
    if parts == [] then [] else " " + Capitalize(parts[0]) + JoinTail(parts[1..])
  }

  lemma {:induction false} JoinCapitalized(parts: seq<String>)
    requires |parts| >= 1
    ensures Join(CapitalizeAll(parts), " ") == Capitalize(parts[0]) + JoinTail(parts[1..])
  {
    if |parts| > 1 {
      JoinCapitalized(parts[1..]);
      var caps := CapitalizeAll(parts);
      assert caps[1..] == CapitalizeAll(parts[1..]);
      assert parts[1..][1..] == parts[2..];
    }
  }

  lemma {:induction false} RetitleSplit(s: String, atStart: bool)
    ensures var parts := Split(s, '.');
            Retitle(s, atStart) == (if atStart then Capitalize(parts[0]) else parts[0]) + JoinTail(parts[1..])
  {
    if |s| > 0 {
      var rest := Split(s[1..], '.');
      if s[0] == '.' {
        RetitleSplit(s[1..], true);
        assert Split(s, '.') == [[]] + rest;
        assert ([[]] + rest)[1..] == rest;
        assert Retitle(s, atStart) == [' '] + Retitle(s[1..], true);
        assert JoinTail(rest) == " " + Capitalize(rest[0]) + JoinTail(rest[1..]);
      } else {
        RetitleSplit(s[1..], false);
        var c := if atStart then UpperChar(s[0]) else s[0];
        var parts := [[s[0]] + rest[0]] + rest[1..];
        assert Split(s, '.') == parts;
        assert parts[1..] == rest[1..];
        assert Retitle(s, atStart) == [c] + Retitle(s[1..], false);
        assert (if atStart then Capitalize(parts[0]) else parts[0]) == [c] + rest[0] by {
          assert parts[0][1..] == rest[0];
        }
      }
    }
  }

  /** `formatFieldName` is the character-by-character rewriting `Retitle` of
      the bracket-free name. */
  lemma FormatFieldNameIsRetitle(field: String)
    ensures FormatFieldName(field) == Retitle(RemoveBrackets(field), true)
  {
    var parts := Split(RemoveBrackets(field), '.');
    JoinCapitalized(parts);
    RetitleSplit(RemoveBrackets(field), true);
  }

  lemma {:induction false} RetitleAt(s: String, atStart: bool, i: nat)
    requires i < |s|
    ensures Retitle(s, atStart)[i] ==
              if s[i] == '.' then ' '
              else if (i == 0 && atStart) || (i > 0 && s[i - 1] == '.') then UpperChar(s[i])
              else s[i]
  {
    if i > 0 {
      RetitleAt(s[1..], s[0] == '.', i - 1);
    }
  }

  /** The formatted field name has the length of the bracket-free name, holds
      no `[`, `]` or `.`, and differs from it only in that every `.` is a space
      and the first character of every part is upper-cased. */
  lemma FormatFieldNameShape(field: String)
    ensures |FormatFieldName(field)| == |RemoveBrackets(field)|
    ensures var r := FormatFieldName(field); '[' !in r && ']' !in r && '.' !in r
    ensures forall i :: 0 <= i < |RemoveBrackets(field)| ==>
              FormatFieldName(field)[i] == Retitled(RemoveBrackets(field), i)
  {
    var s := RemoveBrackets(field);
    FormatFieldNameIsRetitle(field);
    RetitleKeepsOut(s, true);
    assert FormatFieldName(field) == Retitle(s, true);
    forall i | 0 <= i < |s|
      ensures FormatFieldName(field)[i] == Retitled(s, i)
    {
      RetitleAt(s, true, i);
    }
  }

  /** The character the formatted name has at index `i` of the bracket-free
      name `s`: a space for a `.`, the upper-cased character at the start of a
      part, the character itself elsewhere. */
  function Retitled(s: String, i: nat): char
    requires i < |s|
  {
    if s[i] == '.' then ' '
    else if i == 0 || s[i - 1] == '.' then UpperChar(s[i])
    else s[i]
  }

  /** `Retitle` produces no `.`, and no `[` or `]` unless its input has one. */
  lemma {:induction false} RetitleKeepsOut(s: String, atStart: bool)
    ensures var r := Retitle(s, atStart);
            '.' !in r && ('[' !in s ==> '[' !in r) && (']' !in s ==> ']' !in r)
    decreases |s|
  {
    if s != [] {
      RetitleKeepsOut(s[1..], s[0] == '.');
      UpperCharPunctuation(s[0]);
    }
  }

  lemma UpperCharPunctuation(c: char)
    ensures UpperChar(c) == '.' ==> c == '.'
    ensures UpperChar(c) == '[' ==> c == '['
    ensures UpperChar(c) == ']' ==> c == ']'
  {
  }

}
