/**
  The string primitives the CSV code is built from: `trim`, `split('\n')`,
  removal of a leading byte-order mark, the quote stripping of the row parser
  and the quote doubling of the exporter.
 */
module Text {
  import opened Wrappers

  /** U+FEFF, written in front of every export and removed in front of every import. */
  const BOM: char := '\U{FEFF}'

  /** The characters `String.prototype.trim` removes (ECMAScript WhiteSpace and LineTerminator). */
  predicate IsWhitespace(c: char)
  {
    c == ' ' || c == '\t' || c == '\n' || c == '\r' || c == '\U{000B}' || c == '\U{000C}'
    || c == '\U{00A0}' || c == '\U{1680}' || ('\U{2000}' <= c <= '\U{200A}')
    || c == '\U{2028}' || c == '\U{2029}' || c == '\U{202F}' || c == '\U{205F}'
    || c == '\U{3000}' || c == '\U{FEFF}'
  }

  predicate IsBlank(s: string)
  {
    forall i :: 0 <= i < |s| ==> IsWhitespace(s[i])
  }

  predicate AllBlank(lines: seq<string>)
  {
    forall i :: 0 <= i < |lines| ==> IsBlank(lines[i])
  }

  /** `s.trimStart()`. */
  function TrimStart(s: string): (r: string)
    ensures |r| <= |s|
    ensures r == [] || !IsWhitespace(r[0])
  {
    if s != [] && IsWhitespace(s[0]) then TrimStart(s[1..]) else s
  }

  /** `s.trimEnd()`. */
  function TrimEnd(s: string): (r: string)
    ensures |r| <= |s|
    ensures r == [] || !IsWhitespace(r[|r| - 1])
  {
    if s != [] && IsWhitespace(s[|s| - 1]) then TrimEnd(s[..|s| - 1]) else s
  }

  /** `trimStart` removes a blank prefix and keeps the rest. */
  lemma {:induction false} TrimStartSuffix(s: string)
    ensures TrimStart(s) == s[|s| - |TrimStart(s)|..]
    ensures IsBlank(s[..|s| - |TrimStart(s)|])
  {
    if s != [] && IsWhitespace(s[0]) {
      TrimStartSuffix(s[1..]);
      assert s[..|s| - |TrimStart(s)|] == [s[0]] + s[1..][..|s| - 1 - |TrimStart(s)|];
    }
  }

  /** `trimEnd` removes a blank suffix and keeps the rest. */
  lemma {:induction false} TrimEndPrefix(s: string)
    ensures TrimEnd(s) == s[..|TrimEnd(s)|]
    ensures IsBlank(s[|TrimEnd(s)|..])
  {
    if s != [] && IsWhitespace(s[|s| - 1]) {
      TrimEndPrefix(s[..|s| - 1]);
      assert s[|TrimEnd(s)|..] == s[..|s| - 1][|TrimEnd(s)|..] + [s[|s| - 1]];
    }
  }

  /** `s.trim()`: the longest infix of `s` that neither starts nor ends with whitespace. */
  function Trim(s: string): (r: string)
    ensures r == [] || (!IsWhitespace(r[0]) && !IsWhitespace(r[|r| - 1]))
    ensures r == [] <==> IsBlank(s)
  {
    var t := TrimStart(s);
    TrimStartSuffix(s);
    TrimEndPrefix(t);
    var r := TrimEnd(t);
    assert r == [] ==> IsBlank(t);
    assert r == [] ==> s == s[..|s| - |t|] + t;
    r
  }

  /**
    `trim()` removes a blank prefix and a blank suffix and keeps what lies
    between; with `Trim`'s own ensures (the kept part neither starts nor ends
    with whitespace) this pins the result down.
   */
  lemma TrimInfix(s: string)
    ensures exists i :: 0 <= i <= |s| - |Trim(s)| && Trim(s) == s[i..i + |Trim(s)|]
                        && IsBlank(s[..i]) && IsBlank(s[i + |Trim(s)|..])
  {
    var t := TrimStart(s);
    TrimStartSuffix(s);
    TrimEndPrefix(t);
    var i := |s| - |t|;
    var r := Trim(s);
    assert r == t[..|r|];
    assert t == s[i..];
    assert r == s[i..i + |r|];
    assert s[i + |r|..] == t[|r|..];
  }

  /** Trimming a string that has no surrounding whitespace changes nothing; hence trim is idempotent. */
  lemma TrimOfTrimmed(s: string)
    requires s == [] || (!IsWhitespace(s[0]) && !IsWhitespace(s[|s| - 1]))
    ensures Trim(s) == s
  {
  }

  /** `text.replace(/^﻿/, '')`. */
  function StripBom(s: string): (r: string)
    ensures s != [] && s[0] == BOM ==> r == s[1..]
    ensures (s == [] || s[0] != BOM) ==> r == s
  {
    if s != [] && s[0] == BOM then s[1..] else s
  }

  function IndexOfChar(s: string, c: char): (r: Option<nat>)
    ensures r.Some? ==> r.value < |s| && s[r.value] == c && c !in s[..r.value]
    ensures r.None? ==> c !in s
  {
    if s == [] then None
    else if s[0] == c then Some(0)
    else
      match IndexOfChar(s[1..], c)
      case None => None
      case Some(i) =>
        assert s[..i + 1] == [s[0]] + s[1..][..i];
        Some(i + 1)
  }

  /** `lines.join('\n')`. */
  function JoinLines(lines: seq<string>): string
  {
    if lines == [] then "" else if |lines| == 1 then lines[0] else lines[0] + "\n" + JoinLines(lines[1..])
  }

  /** `s.split('\n')`: the pieces between newlines; joining them back gives `s`. */
  function SplitLines(s: string): (lines: seq<string>)
    ensures |lines| >= 1
    ensures forall i :: 0 <= i < |lines| ==> '\n' !in lines[i]
    ensures JoinLines(lines) == s
    decreases |s|
  {
    match IndexOfChar(s, '\n')
    case None => [s]
    case Some(i) =>
      var rest := SplitLines(s[i + 1..]);
      assert s == s[..i] + "\n" + s[i + 1..];
      [s[..i]] + rest
  }

  lemma SplitLinesCons(a: string, b: string)
    requires '\n' !in a
    ensures SplitLines(a + "\n" + b) == [a] + SplitLines(b)
  {
    var s := a + "\n" + b;
    assert s[|a|] == '\n';
    assert s[..|a|] == a && s[|a| + 1..] == b;
    assert forall j :: 0 <= j < |a| ==> s[j] == a[j];
  }

  /** Whether `s` holds an odd number of `"` characters. */
  function OddQuotes(s: string): bool
  {
    if s == [] then false else (s[0] == '"') != OddQuotes(s[1..])
  }

  lemma {:induction false} OddQuotesAppend(a: string, b: string)
    ensures OddQuotes(a + b) == (OddQuotes(a) != OddQuotes(b))
  {
    if a != [] {
      assert (a + b)[1..] == a[1..] + b;
      OddQuotesAppend(a[1..], b);
    } else {
      assert a + b == b;
    }
  }

  /** The parity agrees with the count of quotes. */
  lemma {:induction false} OddQuotesCounts(s: string)
    ensures OddQuotes(s) <==> multiset(s)['"'] % 2 == 1
  {
    if s != [] {
      assert s == [s[0]] + s[1..];
      assert multiset(s) == multiset{s[0]} + multiset(s[1..]);
      OddQuotesCounts(s[1..]);
    }
  }

  /** `s.replace(/"/g, '""')`: every quote doubled, every other character kept. */
  function EscapeQuotes(s: string): string
  {
    if s == [] then []
    else (if s[0] == '"' then "\"\"" else [s[0]]) + EscapeQuotes(s[1..])
  }

  /** Doubling quotes doubles the count of quotes and keeps the count of every other character. */
  lemma {:induction false} EscapeCounts(s: string)
    ensures multiset(EscapeQuotes(s))['"'] == 2 * multiset(s)['"']
    ensures forall c :: c != '"' ==> multiset(EscapeQuotes(s))[c] == multiset(s)[c]
  {
    if s != [] {
      var piece := if s[0] == '"' then "\"\"" else [s[0]];
      assert EscapeQuotes(s) == piece + EscapeQuotes(s[1..]);
      assert s == [s[0]] + s[1..];
      EscapeCounts(s[1..]);
    }
  }

  /** A text without quotes is left as it is. */
  lemma {:induction false} EscapeQuoteFree(s: string)
    requires '"' !in s
    ensures EscapeQuotes(s) == s
  {
    if s != [] {
      assert s == [s[0]] + s[1..];
      EscapeQuoteFree(s[1..]);
    }
  }

  /** Doubling quotes changes every text that has one. */
  lemma EscapeChanges(s: string)
    requires '"' in s
    ensures EscapeQuotes(s) != s
  {
    EscapeCounts(s);
    assert multiset(s)['"'] > 0;
  }

  /** A quote-doubled text holds an even number of quotes. */
  lemma {:induction false} EscapedQuotesEven(s: string)
    ensures !OddQuotes(EscapeQuotes(s))
  {
    if s != [] {
      var piece := if s[0] == '"' then "\"\"" else [s[0]];
      assert EscapeQuotes(s) == piece + EscapeQuotes(s[1..]);
      OddQuotesAppend(piece, EscapeQuotes(s[1..]));
      EscapedQuotesEven(s[1..]);
    }
  }

  /** Doubling quotes keeps a text's first and last characters, or puts a quote there. */
  lemma {:induction false} EscapedEnds(s: string)
    requires s != []
    ensures var e := EscapeQuotes(s);
      e != [] && (e[0] == s[0] || e[0] == '"') && (e[|e| - 1] == s[|s| - 1] || e[|e| - 1] == '"')
  {
    var piece := if s[0] == '"' then "\"\"" else [s[0]];
    var tail := EscapeQuotes(s[1..]);
    assert EscapeQuotes(s) == piece + tail;
    if |s| > 1 {
      EscapedEnds(s[1..]);
      assert s[1..][|s| - 2] == s[|s| - 1];
    } else {
      assert tail == [];
    }
  }

  lemma EscapeKeeps(s: string, c: char)
    requires c != '"'
    ensures c in EscapeQuotes(s) <==> c in s
  {
    EscapeCounts(s);
    assert multiset(EscapeQuotes(s))[c] == multiset(s)[c];
  }

  /** `v.replace(/^"|"$/g, '')`: removes at most one leading and one trailing quote. */
  function StripQuotes(v: string): (r: string)
    ensures |r| <= |v|
  {
    var a := if |v| > 0 && v[0] == '"' then v[1..] else v;
    if |a| > 0 && a[|a| - 1] == '"' then a[..|a| - 1] else a
  }

  lemma StripQuotesOfQuoted(x: string)
    ensures StripQuotes("\"" + x + "\"") == x
  {
    var v := "\"" + x + "\"";
    assert v[1..] == x + "\"";
  }
}
