/**
 String escaping into a bounded buffer, and the scanner that finds the end of
 a string value (sdk/c/src/eipc_json.c).  C strings are sequences without NUL.
 */
module JsonEscape {
  import opened Bytes

  predicate CString(s: string) { '\0' !in s }

  /** What one source character becomes. */
  function EscapeChar(c: char): (e: string)
    ensures 1 <= |e| <= 2
  {
    if c == '\"' || c == '\\' then ['\\', c]
    else if c == '\n' then ['\\', 'n']
    else if c == '\r' then ['\\', 'r']
    else if c == '\t' then ['\\', 't']
    else [c]
  }

  function Escape(s: string): string {
    if |s| == 0 then [] else Escape(s[..|s| - 1]) + EscapeChar(s[|s| - 1])
  }

  /** The reader's side: a backslash and the character it protects. */
  function Unescape(s: string): string {
    if |s| == 0 then []
    else if s[0] == '\\' && |s| > 1 then
      [if s[1] == 'n' then '\n' else if s[1] == 'r' then '\r' else if s[1] == 't' then '\t' else s[1]]
      + Unescape(s[2..])
    else [s[0]] + Unescape(s[1..])
  }

  /** `k` characters were escaped: as many as leave room for the terminator, no escape split. */
  ghost predicate Fits(src: string, k: nat, size: nat) {
    && k <= |src| && |Escape(src[..k])| < size
    && (k < |src| ==> |Escape(src[..k])| + |EscapeChar(src[k])| >= size)
  }

  /** json_escape, with null pointers refused; `k` is how much of the source was consumed. */
  method Escaped(source: Option<string>, dst: array?<char>) returns (di: nat, ghost k: nat)
    requires source.Some? ==> CString(source.value)
    modifies dst
    ensures source.None? || dst == null || dst.Length == 0 ==> di == 0 && (dst != null ==> dst[..] == old(dst[..]))
    ensures source.Some? && dst != null && dst.Length > 0 ==>
              && Fits(source.value, k, dst.Length) && di == |Escape(source.value[..k])|
              && dst[..di] == Escape(source.value[..k]) && dst[di] == '\0' && dst[di + 1..] == old(dst[..])[di + 1..]
  {
    hide Escape;
    di, k := 0, 0;
    if source.None? || dst == null || dst.Length == 0 {
      return;
    }
    var src := source.value;
    ghost var before := dst[..];
    var si := 0;
    EscapeStart(src);
    while si < |src| && di < dst.Length - 1
      invariant 0 <= si <= |src| && di == |Escape(src[..si])| < dst.Length
      invariant dst[..di] == Escape(src[..si]) && dst[..][di..] == before[di..]
      decreases |src| - si
    {
      EscapeNext(src, si);
      var c := src[si];
      if c == '\"' || c == '\\' || c == '\n' || c == '\r' || c == '\t' {
        if di + 2 >= dst.Length {
          break;
        }
        Put(dst, di, '\\', before);
        assert dst[..di + 1] == Escape(src[..si]) + ['\\'];
        Put(dst, di + 1, if c == '\n' then 'n' else if c == '\r' then 'r' else if c == '\t' then 't' else c, before);
        di := di + 2;
      } else {
        Put(dst, di, c, before);
        di := di + 1;
      }
      assert dst[..di] == Escape(src[..si]) + EscapeChar(c);
      si := si + 1;
    }
    k := si;
    Put(dst, di, '\0', before);
    assert dst[..di] == dst[..di + 1][..di];
  }

  /** dst[di] = c, with everything after it still as it was. */
  method Put(dst: array<char>, di: nat, c: char, ghost before: string)
    requires di < dst.Length == |before| && dst[..][di..] == before[di..]
    modifies dst
    ensures dst[..di + 1] == old(dst[..di]) + [c] && dst[..][di + 1..] == before[di + 1..]
  {
    assert before[di..][1..] == before[di + 1..];
    dst[di] := c;
  }

  lemma EscapeStart(src: string)
    ensures Escape(src[..0]) == []
  {
  }

  lemma EscapeNext(src: string, i: nat)
    requires i < |src|
    ensures Escape(src[..i + 1]) == Escape(src[..i]) + EscapeChar(src[i])
  {
    assert src[..i + 1][..i] == src[..i];
  }

  /** The scanner of json_find_string: from just after an opening quote to the closing one, or the end. */
  method ScanString(text: string, start: nat) returns (end: nat)
    requires CString(text) && start <= |text|
    ensures end == start + Scan(text[start..]) <= |text|
    ensures forall n: nat :: EndsString(text[start..], n) <==> n == end - start
  {
    ScanExact(text[start..]);
    end := start;
    while end < |text| && text[end] != '\"'
      invariant start <= end <= |text|
      invariant end + Scan(text[end..]) == start + Scan(text[start..])
      decreases |text| - end
    {
      var rest := text[end..];
      if text[end] == '\\' && end + 1 < |text| {
        assert rest[2..] == text[end + 2..];
        end := end + 2;
      } else {
        assert rest[1..] == text[end + 1..];
        end := end + 1;
      }
    }
  }

  /** How far the scanner goes. */
  function Scan(s: string): (n: nat)
    ensures n <= |s|
  {
    if |s| == 0 || s[0] == '\"' then 0
    else if s[0] == '\\' && |s| > 1 then 2 + Scan(s[2..])
    else 1 + Scan(s[1..])
  }

  /** How many backslashes stand directly before position `k`. */
  function Backslashes(s: string, k: nat): nat
    requires k <= |s|
  {
    if k == 0 || s[k - 1] != '\\' then 0 else 1 + Backslashes(s, k - 1)
  }

  /** The character at `k` is escaped: an odd number of backslashes stands before it. */
  predicate Protected(s: string, k: nat)
    requires k <= |s|
  {
    Backslashes(s, k) % 2 == 1
  }

  /** The string value in front of `s` ends at `n`: at the first quote that is not escaped, or with the text. */
  ghost predicate EndsString(s: string, n: nat) {
    && n <= |s| && (n < |s| ==> s[n] == '\"' && !Protected(s, n))
    && forall k :: 0 <= k < n && s[k] == '\"' ==> Protected(s, k)
  }

  lemma {:induction false} SkipPlain(s: string, k: nat)
    requires 1 <= k <= |s| && s[0] != '\\'
    ensures Backslashes(s, k) == Backslashes(s[1..], k - 1)
  {
    if k > 1 {
      SkipPlain(s, k - 1);
    }
  }

  lemma {:induction false} SkipEscape(s: string, k: nat)
    requires 2 <= k <= |s| && s[0] == '\\'
    ensures Protected(s, k) <==> Protected(s[2..], k - 2)
  {
    if k == 2 {
      assert Backslashes(s, 1) == 1 + Backslashes(s, 0);
    } else {
      SkipEscape(s, k - 1);
    }
  }

  /** The scanner, which skips escapes in pairs, finds the end of the string. */
  lemma {:induction false} ScanEnds(s: string)
    ensures EndsString(s, Scan(s))
  {
    if |s| > 1 && s[0] == '\\' {
      ScanEnds(s[2..]);
      var n := Scan(s);
      SkipEscape(s, n);
      forall k | 0 <= k < n && s[k] == '\"' ensures Protected(s, k) {
        if k >= 2 {
          SkipEscape(s, k);
          assert s[2..][k - 2] == s[k];
        }
      }
    } else if |s| > 0 && s[0] != '\"' && s[0] != '\\' {
      ScanEnds(s[1..]);
      var n := Scan(s);
      SkipPlain(s, n);
      forall k | 0 <= k < n && s[k] == '\"' ensures Protected(s, k) {
        SkipPlain(s, k);
        assert s[1..][k - 1] == s[k];
      }
    }
  }

  /** Only one place is the end. */
  lemma EndUnique(s: string, m: nat, n: nat)
    requires EndsString(s, m) && EndsString(s, n)
    ensures m == n
  {
  }

  /** The scanner's result is the end of the string, and nothing else is. */
  lemma ScanExact(s: string)
    ensures forall n: nat :: EndsString(s, n) <==> n == Scan(s)
  {
    hide EndsString, Scan;
    ScanEnds(s);
    forall n: nat | EndsString(s, n) ensures n == Scan(s) {
      EndUnique(s, n, Scan(s));
    }
  }

  // --------------------------------------------------------------------- lemmas

  lemma {:induction false} EscapeConcat(a: string, b: string)
    ensures Escape(a + b) == Escape(a) + Escape(b)
  {
    if |b| == 0 {
      assert a + b == a;
    } else {
      var init := b[..|b| - 1];
      EscapeConcat(a, init);
      assert (a + b)[..|a + b| - 1] == a + init && (a + b)[|a + b| - 1] == b[|b| - 1];
      assert Escape(a) + Escape(init) + EscapeChar(b[|b| - 1]) == Escape(a) + (Escape(init) + EscapeChar(b[|b| - 1]));
    }
  }

  lemma EscapeCons(s: string)
    requires |s| > 0
    ensures Escape(s) == EscapeChar(s[0]) + Escape(s[1..])
  {
    hide Escape;
    EscapeConcat([s[0]], s[1..]);
    assert s == [s[0]] + s[1..];
    EscapeOne(s[0]);
  }

  lemma EscapeOne(c: char)
    ensures Escape([c]) == EscapeChar(c)
  {
    assert [c][..0] == [];
  }

  /** Escaping is undone by unescaping. */
  lemma {:induction false} UnescapesEscape(s: string)
    ensures Unescape(Escape(s)) == s
  {
    hide Escape;
    if |s| == 0 {
      EscapeStart(s);
      assert s[..0] == s;
    } else {
      EscapeCons(s);
      UnescapesEscape(s[1..]);
      UnescapeFirst(s[0], Escape(s[1..]));
    }
  }

  lemma UnescapeFirst(c: char, rest: string)
    ensures Unescape(EscapeChar(c) + rest) == [c] + Unescape(rest)
  {
    var e := EscapeChar(c) + rest;
    if |EscapeChar(c)| == 2 {
      assert e[2..] == rest;
    } else {
      assert e[1..] == rest;
    }
  }

  /** Started after an opening quote, the scanner stops exactly at the quote that follows the escaped text. */
  lemma {:induction false} ScanStopsAtQuote(s: string, rest: string)
    ensures Scan(Escape(s) + ['\"'] + rest) == |Escape(s)|
  {
    hide Escape;
    if |s| == 0 {
      EscapeStart(s);
      assert s[..0] == s;
    } else {
      EscapeCons(s);
      var tail := Escape(s[1..]) + ['\"'] + rest;
      ScanStopsAtQuote(s[1..], rest);
      assert Escape(s) + ['\"'] + rest == EscapeChar(s[0]) + tail;
      ScanFirst(s[0], tail);
    }
  }

  lemma ScanFirst(c: char, tail: string)
    ensures Scan(EscapeChar(c) + tail) == |EscapeChar(c)| + Scan(tail)
  {
    var e := EscapeChar(c) + tail;
    if |EscapeChar(c)| == 2 {
      assert e[2..] == tail;
    } else {
      assert e[1..] == tail;
    }
  }

  lemma {:induction false} EscapeGrows(s: string, i: nat, j: nat)
    requires i <= j <= |s|
    ensures |Escape(s[..i])| <= |Escape(s[..j])|
    decreases j
  {
    hide Escape;
    if i < j {
      EscapeGrows(s, i, j - 1);
      EscapeNext(s, j - 1);
    }
  }

  /** The whole source is escaped exactly when its escaped form is shorter than the buffer. */
  lemma CompleteIff(src: string, k: nat, size: nat)
    requires Fits(src, k, size)
    ensures k == |src| <==> |Escape(src)| < size
  {
    hide Escape;
    assert src[..|src|] == src;
    if k < |src| {
      EscapeNext(src, k);
      EscapeGrows(src, k + 1, |src|);
    }
  }

  /**
   End to end: what the writer put in its buffer, quoted inside any text, is
   found again and unescapes to a prefix of the source, all of it exactly when
   it fitted.
   */
  lemma WrittenIsFound(src: string, k: nat, size: nat, before: string, after: string)
    requires Fits(src, k, size)
    ensures var text := before + ['\"'] + Escape(src[..k]) + ['\"'] + after;
            var start := |before| + 1;
            var end := start + Scan(text[start..]);
            && end < |text| && text[start..end] == Escape(src[..k])
            && Unescape(text[start..end]) == src[..k] <= src
            && (Unescape(text[start..end]) == src <==> |Escape(src)| < size)
  {
    hide Escape, Unescape;
    var e := Escape(src[..k]);
    var text := before + ['\"'] + e + ['\"'] + after;
    var start := |before| + 1;
    assert text[start..] == e + ['\"'] + after;
    ScanStopsAtQuote(src[..k], after);
    assert text[start..start + |e|] == e;
    UnescapesEscape(src[..k]);
    CompleteIff(src, k, size);
    assert src[..|src|] == src;
  }
}
