/**
 * Word-based truncation of free text (lib/text.ts), together with the
 * whitespace notions it is built on: JavaScript's `\s` class, `trim()`,
 * `split(/\s+/)` and `join(' ')`.
 */
module Text {
  import opened Wrappers

  /** The characters JavaScript's `\s` matches and `String.prototype.trim` removes. */
  predicate IsSpace(c: char) {
    || c == ' ' || c == '\t' || c == '\n' || c == '\r' || c == '\U{B}' || c == '\U{C}'
    || c == '\U{A0}' || c == '\U{1680}' || ('\U{2000}' <= c <= '\U{200A}')
    || c == '\U{2028}' || c == '\U{2029}' || c == '\U{202F}' || c == '\U{205F}'
    || c == '\U{3000}' || c == '\U{FEFF}'
  }

  /** The horizontal ellipsis the truncation appends. */
  const Ellipsis: string := "\U{2026}"

  /** No whitespace at either end. */
  predicate Trimmed(s: string) {
    s == [] || (!IsSpace(s[0]) && !IsSpace(s[|s| - 1]))
  }

  function TrimStart(s: string): (r: string)
    ensures |r| <= |s| && r == s[|s| - |r|..]
    ensures forall i :: 0 <= i < |s| - |r| ==> IsSpace(s[i])
    ensures r == [] || !IsSpace(r[0])
  {
    if s != [] && IsSpace(s[0]) then TrimStart(s[1..]) else s
  }

  function TrimEnd(s: string): (r: string)
    ensures |r| <= |s| && r == s[..|r|]
    ensures forall i :: |r| <= i < |s| ==> IsSpace(s[i])
    ensures r == [] || !IsSpace(r[|r| - 1])
  {
    if s != [] && IsSpace(s[|s| - 1]) then TrimEnd(s[..|s| - 1]) else s
  }

  /** `r` occurs in `s` at index `i`. */
  ghost predicate InfixAt(r: string, s: string, i: int) {
    0 <= i <= |s| - |r| && r == s[i..i + |r|]
  }

  predicate AllSpace(s: string) {
    forall i :: 0 <= i < |s| ==> IsSpace(s[i])
  }

  /** `r` is `s` with a whitespace prefix of length `i` and a whitespace suffix taken off. */
  ghost predicate StrippedAt(r: string, s: string, i: int) {
    InfixAt(r, s, i) && AllSpace(s[..i]) && AllSpace(s[i + |r|..])
  }

  /**
   * `s.trim()`: an infix of `s` that neither starts nor ends with whitespace
   * and leaves only whitespace before and after it.
   */
  function Trim(s: string): (r: string)
    ensures Trimmed(r)
    ensures exists i :: StrippedAt(r, s, i)
  {
    var a := TrimStart(s);
    var r := TrimEnd(a);
    StrippedInTwoSteps(s, a, r);
    r
  }

  lemma StrippedInTwoSteps(s: string, a: string, r: string)
    requires |a| <= |s| && a == s[|s| - |a|..] && AllSpace(s[..|s| - |a|])
    requires |r| <= |a| && r == a[..|r|] && forall k :: |r| <= k < |a| ==> IsSpace(a[k])
    ensures StrippedAt(r, s, |s| - |a|)
  {
    var i := |s| - |a|;
    assert forall k :: i + |r| <= k < |s| ==> s[k] == a[k - i];
  }

  /** Only one infix fits that description, so it pins `Trim` down. */
  lemma TrimUnique(r: string, s: string, i: int)
    requires Trimmed(r) && StrippedAt(r, s, i)
    ensures r == Trim(s)
  {
    var t := Trim(s);
    var j :| StrippedAt(t, s, j);
    if r != [] && t != [] {
      SameStart(r, t, s, i, j);
      SameEnd(r, t, s, i, j);
    } else {
      EmptyOnlyIfAllSpace(r, s, i);
      EmptyOnlyIfAllSpace(t, s, j);
    }
  }

  lemma SameStart(r: string, t: string, s: string, i: int, j: int)
    requires r != [] && t != [] && Trimmed(r) && Trimmed(t)
    requires StrippedAt(r, s, i) && StrippedAt(t, s, j)
    ensures i == j
  {
    assert s[i] == r[0] && s[j] == t[0];
    assert forall k :: 0 <= k < j ==> s[..j][k] == s[k];
    assert forall k :: 0 <= k < i ==> s[..i][k] == s[k];
  }

  lemma SameEnd(r: string, t: string, s: string, i: int, j: int)
    requires r != [] && t != [] && Trimmed(r) && Trimmed(t)
    requires StrippedAt(r, s, i) && StrippedAt(t, s, j)
    ensures i + |r| == j + |t|
  {
    var e, f := i + |r|, j + |t|;
    assert s[e - 1] == r[|r| - 1] && s[f - 1] == t[|t| - 1];
    assert forall k :: e <= k < |s| ==> s[e..][k - e] == s[k];
    assert forall k :: f <= k < |s| ==> s[f..][k - f] == s[k];
  }

  /** The infix is empty exactly when `s` is all whitespace. */
  lemma EmptyOnlyIfAllSpace(r: string, s: string, i: int)
    requires Trimmed(r) && StrippedAt(r, s, i)
    ensures r == [] <==> AllSpace(s)
  {
    if r == [] {
      assert forall k :: 0 <= k < i ==> s[..i][k] == s[k];
      assert forall k :: i <= k < |s| ==> s[i..][k - i] == s[k];
    } else {
      assert s[i] == r[0];
    }
  }

  lemma TrimTrimmed(s: string)
    requires Trimmed(s)
    ensures Trim(s) == s
  {
  }

  /** A non-empty run of non-whitespace characters. */
  predicate IsWord(w: string) {
    w != [] && forall i :: 0 <= i < |w| ==> !IsSpace(w[i])
  }

  /** The length of the run of non-whitespace characters that starts `s`. */
  function WordLen(s: string): (n: nat)
    ensures n <= |s|
    ensures forall i :: 0 <= i < n ==> !IsSpace(s[i])
    ensures n < |s| ==> IsSpace(s[n])
  {
    if s == [] || IsSpace(s[0]) then 0 else 1 + WordLen(s[1..])
  }

  /** The whitespace-separated words of `s`, in order. */
  function Words(s: string): (ws: seq<string>)
    ensures forall w :: w in ws ==> IsWord(w)
    ensures ws == [] <==> AllSpace(s)
    decreases |s|
  {
    if s == [] then []
    else if IsSpace(s[0]) then Words(s[1..])
    else
      var n := WordLen(s);
      [s[..n]] + Words(s[n..])
  }

  /**
   * `t.split(/\s+/)` for a trimmed `t`: its words, except that the empty
   * string splits into one empty piece.
   */
  function SplitOnSpaceRuns(t: string): (pieces: seq<string>)
    requires Trimmed(t)
    ensures |pieces| >= 1
    ensures t == [] ==> pieces == [""]
    ensures t != [] ==> pieces == Words(t) && forall p :: p in pieces ==> IsWord(p)
  {
    if t == [] then [""] else Words(t)
  }

  /** A word run stops where `a` stops when whitespace (or nothing) follows `a`. */
  lemma {:induction false} WordLenStopsAtSpace(a: string, rest: string)
    requires rest == [] || IsSpace(rest[0])
    ensures WordLen(a + rest) == WordLen(a)
    decreases |a|
  {
    if a == [] {
      assert a + rest == rest;
    } else {
      assert (a + rest)[0] == a[0];
      if !IsSpace(a[0]) {
        assert (a + rest)[1..] == a[1..] + rest;
        WordLenStopsAtSpace(a[1..], rest);
      }
    }
  }

  /**
   * A whitespace character separates words: the words of `a`, a blank and
   * `b` are the words of `a` followed by those of `b`. With `Words("") == []`
   * and `Words(w) == [w]` for a word `w`, this determines `Words` on every
   * string.
   */
  lemma {:induction false} WordsSplitAtSpace(a: string, c: char, b: string)
    requires IsSpace(c)
    ensures Words(a + [c] + b) == Words(a) + Words(b)
    decreases |a|
  {
    var s := a + [c] + b;
    if a == [] {
      assert s == [c] + b;
      assert s[1..] == b;
    } else if IsSpace(a[0]) {
      assert s[1..] == a[1..] + [c] + b;
      WordsSplitAtSpace(a[1..], c, b);
    } else {
      assert s == a + ([c] + b);
      WordLenStopsAtSpace(a, [c] + b);
      var n := WordLen(a);
      assert s[..n] == a[..n];
      assert s[n..] == a[n..] + [c] + b;
      WordsSplitAtSpace(a[n..], c, b);
    }
  }

  /** `ws.join(sep)` */
  function Join(ws: seq<string>, sep: string): string {
    if ws == [] then "" else if |ws| == 1 then ws[0] else ws[0] + sep + Join(ws[1..], sep)
  }

  /** The end index `words.slice(0, m)` uses for an array of length `n`. */
  function SliceEnd(n: nat, m: int): (e: nat)
    ensures e <= n
    ensures 0 <= m <= n ==> e == m
  {
    if m < 0 then (if n + m < 0 then 0 else n + m) else if m < n then m else n
  }

  /**
   * `truncateWords(text, maxWords)`: the trimmed text when it has at most
   * `maxWords` words; otherwise its first `maxWords` words joined by single
   * spaces, followed by an ellipsis. Absent or empty text gives "".
   */
  function TruncateWords(text: Option<string>, maxWords: int): (r: string)
    ensures text.None? || text.value == "" ==> r == ""
    ensures text.Some? && text.value != "" && |SplitOnSpaceRuns(Trim(text.value))| <= maxWords
            ==> r == Trim(text.value)
    ensures text.Some? && text.value != "" && |SplitOnSpaceRuns(Trim(text.value))| > maxWords >= 0
            ==> r == Join(SplitOnSpaceRuns(Trim(text.value))[..maxWords], " ") + Ellipsis
    ensures text.Some? && text.value != "" && maxWords < 0
            ==> var n := |SplitOnSpaceRuns(Trim(text.value))|;
                r == Join(SplitOnSpaceRuns(Trim(text.value))[..if n + maxWords < 0 then 0 else n + maxWords], " ")
                     + Ellipsis
  {
    if text.None? || text.value == "" then ""
    else
      var t := Trim(text.value);
      var words := SplitOnSpaceRuns(t);
      if |words| <= maxWords then t
      else Join(words[..SliceEnd(|words|, maxWords)], " ") + Ellipsis
  }

  // ---- Words of joined text ----

  lemma {:induction false} WordLenOfWord(w: string, rest: string)
    requires IsWord(w)
    requires rest == [] || IsSpace(rest[0])
    ensures WordLen(w + rest) == |w|
    decreases |w|
  {
    if |w| > 1 {
      assert (w + rest)[1..] == w[1..] + rest;
      WordLenOfWord(w[1..], rest);
    } else {
      assert (w + rest)[1..] == rest;
    }
  }

  /** Splitting words joined by single spaces gives the words back. */
  lemma {:induction false} WordsOfJoin(ws: seq<string>)
    requires forall w :: w in ws ==> IsWord(w)
    ensures Words(Join(ws, " ")) == ws
    decreases |ws|
  {
    if ws == [] {
    } else if |ws| == 1 {
      var w := ws[0];
      WordLenOfWord(w, "");
      assert w + "" == w;
      assert w[|w|..] == [];
      assert w[..|w|] == w;
    } else {
      var w, j := ws[0], Join(ws[1..], " ");
      var s := w + " " + j;
      assert s == w + (" " + j);
      WordLenOfWord(w, " " + j);
      assert s[..|w|] == w;
      assert s[|w|..] == " " + j;
      assert (" " + j)[1..] == j;
      WordsOfJoin(ws[1..]);
      assert ws == [w] + ws[1..];
    }
  }

  /** Appending to joined text is appending to its last word. */
  lemma {:induction false} JoinAppend(ws: seq<string>, e: string)
    requires ws != []
    ensures Join(ws, " ") + e == Join(ws[..|ws| - 1] + [ws[|ws| - 1] + e], " ")
    decreases |ws|
  {
    if |ws| > 1 {
      JoinAppend(ws[1..], e);
      var vs := ws[..|ws| - 1] + [ws[|ws| - 1] + e];
      assert vs[0] == ws[0];
      assert vs[1..] == ws[1..][..|ws[1..]| - 1] + [ws[1..][|ws[1..]| - 1] + e];
    }
  }

  lemma WordAppend(w: string, e: string)
    requires IsWord(w) && IsWord(e)
    ensures IsWord(w + e)
  {
    forall i | 0 <= i < |w + e| ensures !IsSpace((w + e)[i]) {
      if i >= |w| {
        assert (w + e)[i] == e[i - |w|];
      }
    }
  }

  lemma EllipsisIsWord()
    ensures IsWord(Ellipsis)
    ensures Words(Ellipsis) == [Ellipsis]
  {
    WordsOfJoin([Ellipsis]);
  }

  lemma JoinStartsWithFirst(ws: seq<string>)
    requires ws != [] && ws[0] != []
    ensures Join(ws, " ") != [] && Join(ws, " ")[0] == ws[0][0]
  {
  }

  /**
   * The truncated text of words `ws[..m]` plus the ellipsis: trimmed, and its
   * words are the first `m` words with the ellipsis glued to the last one.
   */
  lemma TruncatedShape(ws: seq<string>, m: nat)
    requires forall w :: w in ws ==> IsWord(w)
    requires 1 <= m <= |ws|
    ensures var r := Join(ws[..m], " ") + Ellipsis;
      && Trimmed(r)
      && Words(r) == ws[..m - 1] + [ws[m - 1] + Ellipsis]
  {
    var p := ws[..m];
    assert forall w :: w in p ==> w in ws;
    JoinAppend(p, Ellipsis);
    var vs := p[..m - 1] + [p[m - 1] + Ellipsis];
    EllipsisIsWord();
    assert p[m - 1] in ws;
    WordAppend(p[m - 1], Ellipsis);
    forall w | w in vs ensures IsWord(w) {
      if w != p[m - 1] + Ellipsis {
        assert w in p;
      }
    }
    WordsOfJoin(vs);
    assert p[0] in ws;
    JoinStartsWithFirst(p);
    var r := Join(p, " ") + Ellipsis;
    assert r[0] == p[0][0];
    assert r[|r| - 1] == '\U{2026}';
    assert p[..m - 1] == ws[..m - 1];
  }

  // ---- Properties of TruncateWords ----

  lemma WordsAtMostPieces(t: string)
    requires Trimmed(t)
    ensures |Words(t)| <= |SplitOnSpaceRuns(t)|
    ensures t != [] ==> SplitOnSpaceRuns(t) == Words(t)
  {
  }

  /**
   * The doc comment's promise: for `maxWords >= 1` the result has at most
   * `maxWords` words, and when text was cut, those words are the first
   * `maxWords` words of the trimmed text, the last one carrying the ellipsis.
   */
  lemma TruncateWordsBound(text: Option<string>, maxWords: int)
    requires maxWords >= 1
    ensures |Words(TruncateWords(text, maxWords))| <= maxWords
    ensures text.Some? && text.value != "" && |Words(Trim(text.value))| > maxWords ==>
      var ws := Words(Trim(text.value));
      Words(TruncateWords(text, maxWords)) == ws[..maxWords - 1] + [ws[maxWords - 1] + Ellipsis]
  {
    if text.Some? && text.value != "" {
      var t := Trim(text.value);
      WordsAtMostPieces(t);
      if |SplitOnSpaceRuns(t)| > maxWords {
        assert t != [];
        TruncatedShape(Words(t), maxWords);
      }
    }
  }

  /** Truncating twice with the same non-negative limit changes nothing more. */
  lemma TruncateWordsIdempotent(text: Option<string>, maxWords: int)
    requires maxWords >= 0
    ensures var r := TruncateWords(text, maxWords);
      TruncateWords(Some(r), maxWords) == r
  {
    var r := TruncateWords(text, maxWords);
    if text.Some? && text.value != "" {
      var t := Trim(text.value);
      var pieces := SplitOnSpaceRuns(t);
      if |pieces| <= maxWords {
        TrimTrimmed(t);
      } else if maxWords == 0 {
        assert r == Ellipsis;
        EllipsisIsWord();
        TrimTrimmed(Ellipsis);
      } else {
        assert t != [];
        TruncatedShape(Words(t), maxWords);
        TrimTrimmed(r);
      }
    }
  }

  lemma {:induction false} JoinEndsWithLast(ws: seq<string>)
    requires ws != [] && ws[|ws| - 1] != []
    ensures var j := Join(ws, " "); j != [] && j[|j| - 1] == ws[|ws| - 1][|ws[|ws| - 1]| - 1]
    decreases |ws|
  {
    if |ws| > 1 {
      JoinEndsWithLast(ws[1..]);
    }
  }

  /** Words joined by single spaces form a trimmed text. */
  lemma JoinTrimmed(ws: seq<string>)
    requires ws != [] && forall w :: w in ws ==> IsWord(w)
    ensures Trimmed(Join(ws, " "))
  {
    assert ws[0] in ws && ws[|ws| - 1] in ws;
    JoinStartsWithFirst(ws);
    JoinEndsWithLast(ws);
  }

  /** With a negative limit `-k`, the last `k` words are cut. */
  lemma TruncateNegative(ws: seq<string>, maxWords: int)
    requires ws != [] && forall w :: w in ws ==> IsWord(w)
    requires maxWords < 0 && |ws| + maxWords >= 0
    ensures TruncateWords(Some(Join(ws, " ")), maxWords) == Join(ws[..|ws| + maxWords], " ") + Ellipsis
  {
    var t := Join(ws, " ");
    JoinTrimmed(ws);
    TrimTrimmed(t);
    WordsOfJoin(ws);
    assert ws[0] in ws;
    JoinStartsWithFirst(ws);
    assert t != "" && Trim(t) == t;
    assert SplitOnSpaceRuns(Trim(t)) == ws;
  }

  lemma AppendCancel(x: string, y: string, e: string)
    requires x + e == y + e
    ensures x == y
  {
    assert |x| == |y|;
    assert x == (x + e)[..|x|] && y == (y + e)[..|y|];
  }

  /** Joining words by single spaces loses nothing. */
  lemma JoinInjective(a: seq<string>, b: seq<string>)
    requires forall w :: w in a ==> IsWord(w)
    requires forall w :: w in b ==> IsWord(w)
    requires Join(a, " ") == Join(b, " ")
    ensures a == b
  {
    WordsOfJoin(a);
    WordsOfJoin(b);
  }

  /** `ws` minus its last word, the ellipsis glued to the new last word. */
  lemma CutLastWord(ws: seq<string>)
    requires |ws| >= 2 && forall w :: w in ws ==> IsWord(w)
    ensures var p := ws[..|ws| - 1];
      var vs := p[..|p| - 1] + [p[|p| - 1] + Ellipsis];
      && TruncateWords(Some(Join(ws, " ")), -1) == Join(vs, " ")
      && |vs| == |ws| - 1 && vs[..|vs| - 1] == ws[..|ws| - 2]
      && forall w :: w in vs ==> IsWord(w)
  {
    var p := ws[..|ws| - 1];
    assert forall w :: w in p ==> w in ws;
    TruncateNegative(ws, -1);
    JoinAppend(p, Ellipsis);
    GluedWords(p, ws);
  }

  /** Gluing the ellipsis to the last of some words of `ws` leaves a list of words. */
  lemma GluedWords(p: seq<string>, ws: seq<string>)
    requires p != [] && forall w :: w in ws ==> IsWord(w)
    requires forall w :: w in p ==> w in ws
    ensures forall w :: w in p[..|p| - 1] + [p[|p| - 1] + Ellipsis] ==> IsWord(w)
  {
    var n := |p|;
    var vs := p[..n - 1] + [p[n - 1] + Ellipsis];
    EllipsisIsWord();
    assert p[n - 1] in ws;
    WordAppend(p[n - 1], Ellipsis);
    forall w | w in vs ensures IsWord(w) {
      if w != p[n - 1] + Ellipsis {
        assert w in p;
      }
    }
  }

  /**
   * A negative limit is not idempotent: `slice(0, -1)` drops one more word on
   * every pass, so the idempotence above needs `maxWords >= 0`.
   */
  lemma NegativeLimitNotIdempotent(ws: seq<string>)
    requires |ws| >= 2 && forall w :: w in ws ==> IsWord(w)
    ensures var once := TruncateWords(Some(Join(ws, " ")), -1);
      TruncateWords(Some(once), -1) != once
  {
    var n := |ws|;
    CutLastWord(ws);
    var p := ws[..n - 1];
    var vs := p[..n - 2] + [p[n - 2] + Ellipsis];
    var once := Join(vs, " ");
    TruncateNegative(vs, -1);
    var twice := Join(ws[..n - 2], " ") + Ellipsis;
    assert TruncateWords(Some(once), -1) == twice;
    if twice == once {
      JoinAppend(p, Ellipsis);
      assert once == Join(p, " ") + Ellipsis;
      AppendCancel(Join(ws[..n - 2], " "), Join(p, " "), Ellipsis);
      assert forall w :: w in ws[..n - 2] ==> w in ws;
      assert forall w :: w in p ==> w in ws;
      JoinInjective(ws[..n - 2], p);
      assert false;
    }
  }
}
