/** The string operations the search tool relies on: Python's `str.lower`, `str.upper`,
    `str.strip`, slicing `s[:n]`, the substring test `a in b`, `str.split` on one
    character and `sep.join(parts)`.  Strings are sequences of characters. */
module Text {

  /** Python's `str.isspace` for one character: the set `str.strip()` removes
      (ASCII tab to carriage return, the four information separators, space, and
      the Unicode space characters). */
  predicate IsSpace(c: char) {
    var n := c as int;
    (0x09 <= n <= 0x0D) || (0x1C <= n <= 0x20) || n == 0x85 || n == 0xA0 || n == 0x1680
    || (0x2000 <= n <= 0x200A) || n == 0x2028 || n == 0x2029 || n == 0x202F || n == 0x205F
    || n == 0x3000
  }

  /** Lower-casing of one character (ASCII letters only). */
  function LowerChar(c: char): char {
    if 'A' <= c <= 'Z' then (c as int + 32) as char else c
  }

  /** Upper-casing of one character (ASCII letters only). */
  function UpperChar(c: char): char {
    if 'a' <= c <= 'z' then (c as int - 32) as char else c
  }

  /** `s.lower()`, as a per-character map. */
  function Lower(s: string): (r: string)
    ensures |r| == |s|
  {
    seq(|s|, i requires 0 <= i < |s| => LowerChar(s[i]))
  }

  /** `s.upper()`, as a per-character map. */
  function Upper(s: string): (r: string)
    ensures |r| == |s|
  {
    seq(|s|, i requires 0 <= i < |s| => UpperChar(s[i]))
  }

  /** `s[:n]`: the first `n` characters, or all of `s` when it is shorter. */
  function Take(s: string, n: nat): (r: string)
    ensures r <= s
    ensures |r| == if |s| <= n then |s| else n
  {
    if |s| <= n then s else s[..n]
  }

  /** `sub in s`: `sub` occurs in `s` at some offset. */
  predicate IsSubstring(sub: string, s: string) {
    exists i | 0 <= i <= |s| :: sub <= s[i..]
  }

  /** The test every search function applies: `query.lower() in text.lower()`. */
  predicate Matches(query: string, text: string) {
    IsSubstring(Lower(query), Lower(text))
  }

  /** `s.lstrip()`: drops the leading whitespace and nothing else. */
  function TrimStart(s: string): (r: string)
    ensures |r| <= |s| && r == s[|s| - |r|..]
    ensures forall k :: 0 <= k < |s| - |r| ==> IsSpace(s[k])
    ensures r != [] ==> !IsSpace(r[0])
  {
    if s != [] && IsSpace(s[0]) then TrimStart(s[1..]) else s
  }

  /** `s.rstrip()`: drops the trailing whitespace and nothing else. */
  function TrimEnd(s: string): (r: string)
    ensures |r| <= |s| && r == s[..|r|]
    ensures forall k :: |r| <= k < |s| ==> IsSpace(s[k])
    ensures r != [] ==> !IsSpace(r[|r| - 1])
  {
    if s != [] && IsSpace(s[|s| - 1]) then TrimEnd(s[..|s| - 1]) else s
  }

  /** `s.strip()`. */
  function Strip(s: string): string {
    TrimEnd(TrimStart(s))
  }

  /** `s.split(sep)` for a one-character separator: the pieces between separators,
      always at least one (`"".split("\n") == [""]`). */
  function Split(s: string, sep: char): (r: seq<string>)
    ensures |r| >= 1
  {
    if s == [] then [""]
    else if s[0] == sep then [""] + Split(s[1..], sep)
    else
      var rest := Split(s[1..], sep);
      [[s[0]] + rest[0]] + rest[1..]
  }

  /** `sep.join(parts)`. */
  function Join(parts: seq<string>, sep: string): string {
    if |parts| == 0 then ""
    else if |parts| == 1 then parts[0]
    else parts[0] + sep + Join(parts[1..], sep)
  }

  // ---------------------------------------------------------------------------
  // Stripping

  /** `s.strip()` is empty exactly when `s` is empty or all whitespace. */
  lemma StripEmptyIffAllSpace(s: string)
    ensures Strip(s) == [] <==> forall k :: 0 <= k < |s| ==> IsSpace(s[k])
  {
    var t := TrimStart(s);
    if Strip(s) == [] {
      assert t == [];
    }
  }

  /** Text with no whitespace at either end is its own strip. */
  lemma StripUnchanged(s: string)
    requires s != [] && !IsSpace(s[0]) && !IsSpace(s[|s| - 1])
    ensures Strip(s) == s
  {
    assert TrimStart(s) == s;
  }

  /** Leading whitespace is dropped up to the first non-space character. */
  lemma {:induction false} TrimStartPadded(pad: string, s: string)
    requires forall k :: 0 <= k < |pad| ==> IsSpace(pad[k])
    requires s != [] ==> !IsSpace(s[0])
    ensures TrimStart(pad + s) == s
  {
    if pad == [] {
      assert pad + s == s;
    } else {
      assert (pad + s)[1..] == pad[1..] + s;
      TrimStartPadded(pad[1..], s);
    }
  }

  /** Trailing whitespace is dropped back to the last non-space character. */
  lemma {:induction false} TrimEndPadded(s: string, pad: string)
    requires forall k :: 0 <= k < |pad| ==> IsSpace(pad[k])
    requires s != [] ==> !IsSpace(s[|s| - 1])
    ensures TrimEnd(s + pad) == s
  {
    if pad == [] {
      assert s + pad == s;
    } else {
      var n := |pad| - 1;
      assert (s + pad)[..|s + pad| - 1] == s + pad[..n];
      TrimEndPadded(s, pad[..n]);
    }
  }

  /** Stripping removes exactly the whitespace around a text. */
  lemma StripPadded(before: string, s: string, after: string)
    requires forall k :: 0 <= k < |before| ==> IsSpace(before[k])
    requires forall k :: 0 <= k < |after| ==> IsSpace(after[k])
    requires s != [] && !IsSpace(s[0]) && !IsSpace(s[|s| - 1])
    ensures Strip(before + s + after) == s
  {
    assert (before + s) + after == before + (s + after);
    TrimStartPadded(before, s + after);
    TrimEndPadded(s, after);
  }

  // ---------------------------------------------------------------------------
  // Substrings

  /** A query longer than the text never matches it. */
  lemma NoMatchWhenLonger(query: string, text: string)
    requires |query| > |text|
    ensures !Matches(query, text)
  {
    forall i | 0 <= i <= |text| ensures !(Lower(query) <= Lower(text)[i..]) {
      assert |Lower(text)[i..]| < |Lower(query)|;
    }
  }

  /** The query matches when its lower-cased form sits at offset `i` of the lower-cased text. */
  lemma MatchAt(query: string, text: string, i: nat)
    requires i + |query| <= |text|
    requires forall k :: 0 <= k < |query| ==> LowerChar(query[k]) == LowerChar(text[i + k])
    ensures Matches(query, text)
  {
    assert Lower(query) <= Lower(text)[i..];
  }

  /** A substring of a substring is a substring. */
  lemma SubstringTrans(a: string, b: string, c: string)
    requires IsSubstring(a, b) && IsSubstring(b, c)
    ensures IsSubstring(a, c)
  {
    var i :| 0 <= i <= |b| && a <= b[i..];
    var j :| 0 <= j <= |c| && b <= c[j..];
    assert c[j + i..][..|a|] == b[i..][..|a|];
    assert a <= c[j + i..];
  }

  /** Lower-casing keeps a substring a substring, at the same offset. */
  lemma SubstringLower(a: string, b: string)
    requires IsSubstring(a, b)
    ensures IsSubstring(Lower(a), Lower(b))
  {
    var i :| 0 <= i <= |b| && a <= b[i..];
    assert Lower(b)[i..][..|a|] == Lower(a);
  }

  /** The separator-free prefix `a` and suffix `b` around a joint both occur in `a + m + b`. */
  lemma SubstringOfConcat(a: string, m: string, b: string)
    ensures IsSubstring(a, a + m + b)
    ensures IsSubstring(b, a + m + b)
  {
    assert a <= (a + m + b)[0..];
    assert b <= (a + m + b)[|a| + |m|..];
  }

  // ---------------------------------------------------------------------------
  // Split and join

  /** Joining the pieces of a split with the separator gives back the string. */
  lemma {:induction false} JoinSplit(s: string, sep: char)
    ensures Join(Split(s, sep), [sep]) == s
  {
    if s == [] {
    } else if s[0] == sep {
      JoinSplit(s[1..], sep);
      var rest := Split(s[1..], sep);
      assert Split(s, sep) == [""] + rest;
      assert ([""] + rest)[1..] == rest;
    } else {
      JoinSplit(s[1..], sep);
      var rest := Split(s[1..], sep);
      var r := [[s[0]] + rest[0]] + rest[1..];
      if |rest| == 1 {
      } else {
        assert r[1..] == rest[1..];
        assert Join(rest, [sep]) == rest[0] + [sep] + Join(rest[1..], [sep]);
      }
    }
  }

  /** A string without the separator splits into itself alone. */
  lemma {:induction false} SplitFree(a: string, sep: char)
    requires sep !in a
    ensures Split(a, sep) == [a]
  {
    if a != [] {
      SplitFree(a[1..], sep);
      assert [a[0]] + a[1..] == a;
    }
  }

  /** Splitting `a + sep + b`, with `a` free of the separator, yields `a` followed by the pieces of `b`. */
  lemma {:induction false} SplitAtFirst(a: string, sep: char, b: string)
    requires sep !in a
    ensures Split(a + [sep] + b, sep) == [a] + Split(b, sep)
  {
    var s := a + [sep] + b;
    if a == [] {
      assert s[1..] == b;
    } else {
      assert s[1..] == a[1..] + [sep] + b;
      SplitAtFirst(a[1..], sep, b);
      assert [a[0]] + a[1..] == a;
    }
  }

  /** Splitting a join of separator-free pieces gives the pieces back. */
  lemma {:induction false} SplitJoin(parts: seq<string>, sep: char)
    requires |parts| >= 1
    requires forall k :: 0 <= k < |parts| ==> sep !in parts[k]
    ensures Split(Join(parts, [sep]), sep) == parts
  {
    if |parts| == 1 {
      SplitFree(parts[0], sep);
    } else {
      SplitJoin(parts[1..], sep);
      SplitAtFirst(parts[0], sep, Join(parts[1..], [sep]));
      assert [parts[0]] + parts[1..] == parts;
    }
  }

  /** Three parts joined by `sep`. */
  lemma JoinThree(a: string, b: string, c: string, sep: string)
    ensures Join([a, b, c], sep) == a + sep + b + sep + c
  {
    var tail := b + sep + c;
    assert Join([a, b, c], sep) == a + sep + tail by {
      assert [a, b, c][1..] == [b, c];
      assert Join([b, c], sep) == tail by {
        assert [b, c][1..] == [c];
      }
    }
  }

  /** A join starts with its first part. */
  lemma JoinStartsWithFirst(parts: seq<string>, sep: string)
    requires |parts| >= 1
    ensures parts[0] <= Join(parts, sep)
  {
    if |parts| > 1 {
      assert Join(parts, sep) == parts[0] + (sep + Join(parts[1..], sep));
    }
  }

  /** The second part of a join starts right after the first part and the separator. */
  lemma JoinSecondAt(parts: seq<string>, sep: string)
    requires |parts| >= 2
    ensures |parts[0]| + |sep| <= |Join(parts, sep)|
    ensures parts[1] <= Join(parts, sep)[|parts[0]| + |sep|..]
  {
    var rest := Join(parts[1..], sep);
    assert Join(parts, sep) == parts[0] + sep + rest;
    assert (parts[0] + sep + rest)[|parts[0]| + |sep|..] == rest;
    JoinStartsWithFirst(parts[1..], sep);
    assert parts[1..][0] == parts[1];
  }

  /** Every piece of a join occurs in the joined string. */
  lemma {:induction false} PartInJoin(parts: seq<string>, sep: string, k: nat)
    requires k < |parts|
    ensures IsSubstring(parts[k], Join(parts, sep))
  {
    var whole := Join(parts, sep);
    if |parts| == 1 {
      assert whole == parts[0];
      assert parts[0] <= whole[0..];
    } else {
      var tail := Join(parts[1..], sep);
      assert whole == parts[0] + sep + tail;
      SubstringOfConcat(parts[0], sep, tail);
      if k > 0 {
        assert parts[1..][k - 1] == parts[k];
        PartInJoin(parts[1..], sep, k - 1);
        SubstringTrans(parts[k], tail, whole);
      }
    }
  }

  /** Every line of a split occurs in the string that was split. */
  lemma LineInText(s: string, sep: char, k: nat)
    requires k < |Split(s, sep)|
    ensures IsSubstring(Split(s, sep)[k], s)
  {
    PartInJoin(Split(s, sep), [sep], k);
    JoinSplit(s, sep);
  }

  /** If the query matches one line of a text, it matches the whole text. */
  lemma LineMatchImpliesTextMatch(query: string, s: string, sep: char, k: nat)
    requires k < |Split(s, sep)|
    requires Matches(query, Split(s, sep)[k])
    ensures Matches(query, s)
  {
    var line := Split(s, sep)[k];
    LineInText(s, sep, k);
    SubstringLower(line, s);
    SubstringTrans(Lower(query), Lower(line), Lower(s));
  }

  /** A separator-free prefix of a string is a prefix of its first piece. */
  lemma {:induction false} FirstPiecePrefix(p: string, s: string, sep: char)
    requires sep !in p && p <= s
    ensures p <= Split(s, sep)[0]
  {
    if p != [] {
      assert p[0] in p;
      assert p[1..] <= s[1..];
      FirstPiecePrefix(p[1..], s[1..], sep);
      assert Split(s, sep)[0] == [s[0]] + Split(s[1..], sep)[0];
    }
  }

  /** A separator-free substring of a string lies within one of its pieces. */
  lemma {:induction false} SubstringInPiece(sub: string, s: string, sep: char)
    requires sep !in sub && IsSubstring(sub, s)
    ensures exists k :: 0 <= k < |Split(s, sep)| && IsSubstring(sub, Split(s, sep)[k])
  {
    var i :| 0 <= i <= |s| && sub <= s[i..];
    if sub == [] {
      assert sub <= Split(s, sep)[0][0..];
    } else if i == 0 {
      FirstPiecePrefix(sub, s, sep);
      assert sub <= Split(s, sep)[0][0..];
    } else {
      assert IsSubstring(sub, s[1..]) by {
        assert sub <= s[1..][i - 1..];
      }
      SubstringInPiece(sub, s[1..], sep);
      var k :| 0 <= k < |Split(s[1..], sep)| && IsSubstring(sub, Split(s[1..], sep)[k]);
      PieceOfTail(sub, s, sep, k);
    }
  }

  /** What lies within piece `k` of the tail `s[1..]` lies within a piece of `s`. */
  lemma PieceOfTail(sub: string, s: string, sep: char, k: nat)
    requires s != [] && k < |Split(s[1..], sep)| && IsSubstring(sub, Split(s[1..], sep)[k])
    ensures exists j :: 0 <= j < |Split(s, sep)| && IsSubstring(sub, Split(s, sep)[j])
  {
    var rest := Split(s[1..], sep);
    var pieces := Split(s, sep);
    if s[0] == sep {
      assert pieces == [""] + rest;
      assert pieces[k + 1] == rest[k];
      assert IsSubstring(sub, pieces[k + 1]);
    } else {
      var first := [s[0]] + rest[0];
      assert pieces == [first] + rest[1..];
      if k == 0 {
        assert first == [s[0]] + [] + rest[0];
        SubstringOfConcat([s[0]], [], rest[0]);
        SubstringTrans(sub, rest[0], first);
        assert IsSubstring(sub, pieces[0]);
      } else {
        assert pieces[k] == rest[1..][k - 1] == rest[k];
        assert IsSubstring(sub, pieces[k]);
      }
    }
  }

  /** The converse of `LineMatchImpliesTextMatch` for a query without the separator
      (and a separator that is not a letter): a query that matches the text matches
      one of its pieces.  A query holding the separator can match across pieces. */
  lemma TextMatchImpliesLineMatch(query: string, s: string, sep: char)
    requires !('a' <= sep <= 'z') && !('A' <= sep <= 'Z')
    requires sep !in query && Matches(query, s)
    ensures exists k :: 0 <= k < |Split(s, sep)| && Matches(query, Split(s, sep)[k])
  {
    var i :| 0 <= i <= |Lower(s)| && Lower(query) <= Lower(s)[i..];
    var seg := s[i..i + |query|];
    forall j | 0 <= j < |query|
      ensures LowerChar(seg[j]) == LowerChar(query[j]) && seg[j] != sep
    {
      assert Lower(s)[i + j] == Lower(query)[j];
      assert query[j] in query;
    }
    assert Lower(seg) == Lower(query);
    assert seg <= s[i..];
    SubstringInPiece(seg, s, sep);
    var k :| 0 <= k < |Split(s, sep)| && IsSubstring(seg, Split(s, sep)[k]);
    SubstringLower(seg, Split(s, sep)[k]);
  }
}
