/**
 * The pure helpers of the about-video section (components/AboutVideoSection.tsx):
 * recognising a YouTube or Vimeo link, turning it into an embeddable player
 * URL, deciding whether a link is played as a native video, and breaking the
 * headline into display lines. Each regular expression the component uses is
 * modelled by its leftmost-match semantics.
 */
module AboutVideo {
  import opened Wrappers
  import opened Text

  // ---- Case-insensitive search (`/youtube|youtu\.be|vimeo/i`) ----

  /** ASCII lower-casing: the only case folding that can make a character match an ASCII pattern letter. */
  function Lower(c: char): char {
    if 'A' <= c <= 'Z' then (c as int + 32) as char else c
  }

  /** `pat` occurs in `s` at index `i`, ignoring case. */
  predicate OccursAtCI(s: string, i: int, pat: string) {
    0 <= i && i + |pat| <= |s| && forall k :: 0 <= k < |pat| ==> Lower(s[i + k]) == Lower(pat[k])
  }

  /** Whether `pat` occurs in `s` at or after `from`, ignoring case. */
  function ContainsCI(s: string, pat: string, from: nat): (b: bool)
    ensures b <==> exists i :: from <= i && OccursAtCI(s, i, pat)
    decreases |s| + 1 - from
  {
    if from + |pat| > |s| then false
    else OccursAtCI(s, from, pat) || ContainsCI(s, pat, from + 1)
  }

  /** `isYouTubeOrVimeo`: the URL mentions youtube, youtu.be or vimeo, in any case. */
  function IsYouTubeOrVimeo(url: string): (b: bool)
    ensures b <==> exists i :: OccursAtCI(url, i, "youtube") || OccursAtCI(url, i, "youtu.be") || OccursAtCI(url, i, "vimeo")
  {
    ContainsCI(url, "youtube", 0) || ContainsCI(url, "youtu.be", 0) || ContainsCI(url, "vimeo", 0)
  }

  // ---- Capturing matches (`/prefix(class+)/`) ----

  /** The character classes the embed patterns capture, and the whitespace class `\s`. */
  datatype CharClass = NotAmpersand | NotQuestionMark | Digit | Space

  predicate InClass(c: char, cls: CharClass) {
    match cls
    case NotAmpersand => c != '&'
    case NotQuestionMark => c != '?'
    case Digit => '0' <= c <= '9'
    case Space => IsSpace(c)
  }

  /** The pattern `prefix(cls+)` matches `s` at index `i`. */
  predicate MatchAt(s: string, i: int, prefix: string, cls: CharClass) {
    0 <= i && i + |prefix| < |s| && s[i..i + |prefix|] == prefix && InClass(s[i + |prefix|], cls)
  }

  /** The regex test: the pattern matches somewhere. */
  ghost predicate Matches(s: string, prefix: string, cls: CharClass) {
    exists i :: MatchAt(s, i, prefix, cls)
  }

  /** The leftmost index at or after `from` where `prefix(cls+)` matches. */
  function FindMatch(s: string, prefix: string, cls: CharClass, from: nat): (r: Option<nat>)
    ensures r.Some? ==> from <= r.value && MatchAt(s, r.value, prefix, cls)
    ensures r.Some? ==> forall j :: from <= j < r.value ==> !MatchAt(s, j, prefix, cls)
    ensures r.None? ==> forall j :: from <= j ==> !MatchAt(s, j, prefix, cls)
    decreases |s| - from
  {
    if from + |prefix| >= |s| then None
    else if MatchAt(s, from, prefix, cls) then Some(from)
    else FindMatch(s, prefix, cls, from + 1)
  }

  /** Where the longest run of `cls` characters starting at `j` ends. */
  function RunEnd(s: string, j: nat, cls: CharClass): (k: nat)
    requires j <= |s|
    ensures j <= k <= |s|
    ensures forall m :: j <= m < k ==> InClass(s[m], cls)
    ensures k == |s| || !InClass(s[k], cls)
    decreases |s| - j
  {
    if j < |s| && InClass(s[j], cls) then RunEnd(s, j + 1, cls) else j
  }

  /** The greedy group of a match at `i`: a non-empty run of `cls` right after the prefix that cannot be extended. */
  function Capture(s: string, i: nat, prefix: string, cls: CharClass): (c: string)
    requires MatchAt(s, i, prefix, cls)
    ensures c != [] && i + |prefix| + |c| <= |s|
    ensures c == s[i + |prefix|..i + |prefix| + |c|]
    ensures forall ch :: ch in c ==> InClass(ch, cls)
    ensures i + |prefix| + |c| == |s| || !InClass(s[i + |prefix| + |c|], cls)
  {
    var k := RunEnd(s, i + |prefix|, cls);
    s[i + |prefix|..k]
  }

  /** `s.match(/prefix(cls+)/)?.[1]`: the group of the leftmost match. */
  function FirstCapture(s: string, prefix: string, cls: CharClass): (r: Option<string>)
    ensures r.Some? <==> Matches(s, prefix, cls)
    ensures r.Some? ==> exists i :: (MatchAt(s, i, prefix, cls) && r.value == Capture(s, i, prefix, cls)
                                     && forall j :: 0 <= j < i ==> !MatchAt(s, j, prefix, cls))
  {
    match FindMatch(s, prefix, cls, 0)
    case None => None
    case Some(i) => Some(Capture(s, i, prefix, cls))
  }

  // ---- Embed URLs ----

  const WatchPrefix: string := "youtube.com/watch?v="
  const IdPrefix: string := "v="
  const ShortPrefix: string := "youtu.be/"
  const VimeoPrefix: string := "vimeo.com/"

  function YouTubeEmbed(id: string): string {
    "https://www.youtube.com/embed/" + id + "?autoplay=1"
  }

  function VimeoEmbed(id: string): string {
    "https://player.vimeo.com/video/" + id + "?autoplay=1"
  }

  /** Every `youtube.com/watch?v=` match holds a `v=` match, so the id lookup never comes back empty. */
  lemma WatchHoldsId(s: string, i: int)
    requires MatchAt(s, i, WatchPrefix, NotAmpersand)
    ensures MatchAt(s, i + 18, IdPrefix, NotAmpersand)
  {
    assert s[i + 18] == WatchPrefix[18] && s[i + 19] == WatchPrefix[19];
    assert s[i + 18..i + 20] == IdPrefix;
  }

  /**
   * `getEmbedUrl`: a `youtube.com/watch?v=` link gives the YouTube player for
   * the text after the first `v=` up to the next `&`; otherwise a
   * `youtu.be/` link gives it for the text up to the first `?`; otherwise a
   * `vimeo.com/` link followed by digits gives the Vimeo player for those
   * digits; anything else has no embed form.
   */
  function EmbedUrl(url: string): (r: Option<string>)
    ensures Matches(url, WatchPrefix, NotAmpersand) ==>
      FirstCapture(url, IdPrefix, NotAmpersand).Some? && r == Some(YouTubeEmbed(FirstCapture(url, IdPrefix, NotAmpersand).value))
    ensures !Matches(url, WatchPrefix, NotAmpersand) && Matches(url, ShortPrefix, NotQuestionMark) ==>
      FirstCapture(url, ShortPrefix, NotQuestionMark).Some? && r == Some(YouTubeEmbed(FirstCapture(url, ShortPrefix, NotQuestionMark).value))
    ensures !Matches(url, WatchPrefix, NotAmpersand) && !Matches(url, ShortPrefix, NotQuestionMark) && Matches(url, VimeoPrefix, Digit) ==>
      FirstCapture(url, VimeoPrefix, Digit).Some? && r == Some(VimeoEmbed(FirstCapture(url, VimeoPrefix, Digit).value))
    ensures !Matches(url, WatchPrefix, NotAmpersand) && !Matches(url, ShortPrefix, NotQuestionMark) && !Matches(url, VimeoPrefix, Digit) ==>
      r.None?
  {
    if FindMatch(url, WatchPrefix, NotAmpersand, 0).Some? then
      WatchHoldsId(url, FindMatch(url, WatchPrefix, NotAmpersand, 0).value);
      match FirstCapture(url, IdPrefix, NotAmpersand)
      case Some(id) => Some(YouTubeEmbed(id))
      case None => None
    else if FindMatch(url, ShortPrefix, NotQuestionMark, 0).Some? then
      match FirstCapture(url, ShortPrefix, NotQuestionMark)
      case Some(id) => Some(YouTubeEmbed(id))
      case None => None
    else if FindMatch(url, VimeoPrefix, Digit, 0).Some? then
      match FirstCapture(url, VimeoPrefix, Digit)
      case Some(id) => Some(VimeoEmbed(id))
      case None => None
    else None
  }

  /** A match of `prefix` also mentions any pattern that `prefix` starts with, in any case. */
  lemma MatchMentions(s: string, i: int, prefix: string, cls: CharClass, pat: string)
    requires MatchAt(s, i, prefix, cls)
    requires |pat| <= |prefix| && pat == prefix[..|pat|]
    ensures OccursAtCI(s, i, pat)
  {
    forall k | 0 <= k < |pat| ensures Lower(s[i + k]) == Lower(pat[k]) {
      assert s[i + k] == s[i..i + |prefix|][k];
    }
  }

  /** Every link with an embed form is one the component recognises as YouTube or Vimeo. */
  lemma EmbedImpliesRecognised(url: string)
    ensures EmbedUrl(url).Some? ==> IsYouTubeOrVimeo(url)
  {
    if EmbedUrl(url).None? {
    } else if Matches(url, WatchPrefix, NotAmpersand) {
      var i :| MatchAt(url, i, WatchPrefix, NotAmpersand);
      MatchMentions(url, i, WatchPrefix, NotAmpersand, "youtube");
    } else if Matches(url, ShortPrefix, NotQuestionMark) {
      var i :| MatchAt(url, i, ShortPrefix, NotQuestionMark);
      MatchMentions(url, i, ShortPrefix, NotQuestionMark, "youtu.be");
    } else {
      var i :| MatchAt(url, i, VimeoPrefix, Digit);
      MatchMentions(url, i, VimeoPrefix, Digit, "vimeo");
    }
  }

  // ---- Native video decision ----

  /** `hasVideo`, `embedUrl` and whether `isNativeVideo` is truthy. */
  datatype VideoPlan = VideoPlan(hasVideo: bool, embedUrl: Option<string>, isNativeVideo: bool)

  /**
   * The component's video decision: a link with an embed form is played in
   * the embedded player, any other non-empty link as a native video, and a
   * video is shown only when the trimmed link is non-empty.
   */
  function PlanVideo(videoUrl: Option<string>): (p: VideoPlan)
    ensures p.hasVideo <==> videoUrl.Some? && Trim(videoUrl.value) != ""
    ensures p.embedUrl.Some? ==> videoUrl.Some? && IsYouTubeOrVimeo(videoUrl.value)
    ensures videoUrl.None? || videoUrl.value == "" ==> p.embedUrl.None? && !p.isNativeVideo
    ensures videoUrl.Some? && videoUrl.value != "" ==> p.embedUrl == EmbedUrl(videoUrl.value)
    ensures p.isNativeVideo <==> videoUrl.Some? && videoUrl.value != "" && EmbedUrl(videoUrl.value).None?
  {
    var hasVideo := videoUrl.Some? && Trim(videoUrl.value) != "";
    var embed := if videoUrl.Some? && videoUrl.value != "" && IsYouTubeOrVimeo(videoUrl.value) then EmbedUrl(videoUrl.value) else None;
    if videoUrl.None? then VideoPlan(hasVideo, embed, false)
    else
      EmbedImpliesRecognised(videoUrl.value);
      VideoPlan(hasVideo, embed, videoUrl.Some? && videoUrl.value != "" && embed.None?)
  }

  // ---- Headline ----

  const DefaultHeadline: string := "Feel the authentic &\noriginal taste from us"

  /** `headline?.trim() || DEFAULT_HEADLINE`: never empty and never starting with whitespace. */
  function DisplayHeadline(headline: Option<string>): (d: string)
    ensures d != [] && !IsSpace(d[0])
    ensures headline.Some? && Trim(headline.value) != "" ==> d == Trim(headline.value)
    ensures headline.None? || Trim(headline.value) == "" ==> d == DefaultHeadline
  {
    if headline.Some? && Trim(headline.value) != "" then Trim(headline.value) else DefaultHeadline
  }

  /** `\s+&\s+` matches at `i`: whitespace from `i`, an ampersand right after the run, and whitespace after it. */
  predicate AmpersandAt(s: string, i: int) {
    0 <= i < |s| && IsSpace(s[i]) &&
    var k := RunEnd(s, i, Space);
    k + 1 < |s| && s[k] == '&' && IsSpace(s[k + 1])
  }

  /** The leftmost index at or after `from` where `\s+&\s+` matches. */
  function FindAmpersand(s: string, from: nat): (r: Option<nat>)
    ensures r.Some? ==> from <= r.value && AmpersandAt(s, r.value)
    ensures r.Some? ==> forall j :: from <= j < r.value ==> !AmpersandAt(s, j)
    ensures r.None? ==> forall j :: from <= j ==> !AmpersandAt(s, j)
    decreases |s| - from
  {
    if from >= |s| then None
    else if AmpersandAt(s, from) then Some(from)
    else FindAmpersand(s, from + 1)
  }

  /**
   * `s.replace(/\s+&\s+/, ' &\n')`: the leftmost whitespace-surrounded
   * ampersand, with all the whitespace around it, becomes " &" and a line
   * break; the text before it is kept, and without one nothing changes.
   */
  function BreakAtAmpersand(s: string): (r: string)
    ensures FindAmpersand(s, 0).None? ==> r == s
    ensures FindAmpersand(s, 0).Some? ==>
      var i := FindAmpersand(s, 0).value;
      var k := RunEnd(s, i, Space);
      r == s[..i] + " &\n" + s[RunEnd(s, k + 1, Space)..]
    ensures s != [] && !IsSpace(s[0]) ==> r != [] && r[0] == s[0]
  {
    match FindAmpersand(s, 0)
    case None => s
    case Some(i) =>
      var k := RunEnd(s, i, Space);
      s[..i] + " &\n" + s[RunEnd(s, k + 1, Space)..]
  }

  /** The pieces after the first line of a text are its pieces with that character dropped, joined by the separator. */
  lemma JoinGlue(c: char, ws: seq<string>)
    requires ws != []
    ensures Join([[c] + ws[0]] + ws[1..], "\n") == [c] + Join(ws, "\n")
  {
    var v := [[c] + ws[0]] + ws[1..];
    assert v[1..] == ws[1..];
  }

  /** `s.split('\n')`: at least one piece, none holding a line break, and joining them gives `s` back. */
  function SplitLines(s: string): (pieces: seq<string>)
    ensures |pieces| >= 1
    ensures forall p :: p in pieces ==> '\n' !in p
    ensures Join(pieces, "\n") == s
    ensures s != [] && s[0] != '\n' ==> pieces[0] != [] && pieces[0][0] == s[0]
    decreases |s|
  {
    if s == [] then [""]
    else if s[0] == '\n' then
      var rest := SplitLines(s[1..]);
      assert ([""] + rest)[1..] == rest;
      [""] + rest
    else
      var rest := SplitLines(s[1..]);
      JoinGlue(s[0], rest);
      assert s == [s[0]] + s[1..];
      [[s[0]] + rest[0]] + rest[1..]
  }

  /** `.filter(Boolean)` on strings: the non-empty ones, in order. */
  function NonEmpty(ps: seq<string>): (r: seq<string>)
    ensures forall p :: p in r <==> p in ps && p != ""
    ensures ps != [] && ps[0] != "" ==> r != [] && r[0] == ps[0]
  {
    if ps == [] then []
    else if ps[0] == "" then NonEmpty(ps[1..])
    else [ps[0]] + NonEmpty(ps[1..])
  }

  /** The filter keeps input order: the pieces kept from a concatenation are those of each part, in turn. */
  lemma {:induction false} NonEmptyAppend(a: seq<string>, b: seq<string>)
    ensures NonEmpty(a + b) == NonEmpty(a) + NonEmpty(b)
    decreases |a|
  {
    if a == [] {
      assert a + b == b;
    } else {
      assert (a + b)[0] == a[0];
      assert (a + b)[1..] == a[1..] + b;
      NonEmptyAppend(a[1..], b);
    }
  }

  /** A single piece is kept, once, exactly when it is non-empty. */
  lemma NonEmptyOne(p: string)
    ensures NonEmpty([p]) == (if p == "" then [] else [p])
  {
    assert [p][1..] == [];
  }

  /**
   * The headline lines as the component computes them, fallback included:
   * a `DEFAULT_HEADLINE` line pushed when the filtered list is empty.
   */
  function HeadlineLines(headline: Option<string>): (lines: seq<string>)
    ensures lines != []
    ensures forall l :: l in lines ==> l != "" && '\n' !in l
    ensures lines == NonEmpty(SplitLines(BreakAtAmpersand(DisplayHeadline(headline))))
  {
    var lines := NonEmpty(SplitLines(BreakAtAmpersand(DisplayHeadline(headline))));
    HeadlineFallbackUnused(headline);
    if lines == [] then [DefaultHeadline] else lines
  }

  /** The fallback line is never needed: a displayed headline always yields a first line. */
  lemma HeadlineFallbackUnused(headline: Option<string>)
    ensures NonEmpty(SplitLines(BreakAtAmpersand(DisplayHeadline(headline)))) != []
  {
    var d := DisplayHeadline(headline);
    var b := BreakAtAmpersand(d);
    assert b != [] && b[0] == d[0];
    assert b[0] != '\n';
  }

  // ---- Worked examples ----

  lemma {:induction false} SplitWithoutBreak(a: string)
    requires '\n' !in a
    ensures SplitLines(a) == [a]
  {
    if a != [] {
      SplitWithoutBreak(a[1..]);
    }
  }

  lemma {:induction false} SplitAtBreak(a: string, b: string)
    requires '\n' !in a
    ensures SplitLines(a + "\n" + b) == [a] + SplitLines(b)
  {
    var s := a + "\n" + b;
    if a == [] {
      assert s[1..] == b;
    } else {
      assert s[1..] == a[1..] + "\n" + b;
      SplitAtBreak(a[1..], b);
      var rest := SplitLines(s[1..]);
      assert s[0] == a[0] && s[0] != '\n';
      assert SplitLines(s) == [[s[0]] + rest[0]] + rest[1..];
      assert rest[1..] == SplitLines(b);
      assert [s[0]] + rest[0] == a;
    }
  }

  const FirstLine: string := "Feel the authentic &"
  const SecondLine: string := "original taste from us"

  /** The search finds the leftmost match. */
  lemma {:induction false} FindsLeftmostAmpersand(s: string, i: nat, from: nat)
    requires from <= i && AmpersandAt(s, i)
    requires forall j :: from <= j < i ==> !AmpersandAt(s, j)
    ensures FindAmpersand(s, from) == Some(i)
    decreases i - from
  {
    if from < i {
      FindsLeftmostAmpersand(s, i, from + 1);
    }
  }

  lemma DefaultAmpersandAt()
    ensures AmpersandAt(DefaultHeadline, 18)
  {
    assert RunEnd(DefaultHeadline, 18, Space) == 19;
  }

  /** A match of `\s+&\s+` cannot start on a character that is not whitespace. */
  lemma NoAmpersandOffSpace(s: string, j: nat)
    requires j < |s| && !IsSpace(s[j])
    ensures !AmpersandAt(s, j)
  {
  }

  /** Nor on a single space followed by anything but an ampersand. */
  lemma NoAmpersandAfterSpace(s: string, j: nat)
    requires j + 1 < |s| && !IsSpace(s[j + 1]) && s[j + 1] != '&'
    ensures !AmpersandAt(s, j)
  {
    if IsSpace(s[j]) {
      assert RunEnd(s, j + 1, Space) == j + 1;
    }
  }

  lemma DefaultNoEarlierAmpersand()
    ensures forall j :: 0 <= j < 18 ==> !AmpersandAt(DefaultHeadline, j)
  {
    var d := DefaultHeadline;
    forall j | 0 <= j < 18 ensures !AmpersandAt(d, j) {
      if j == 4 || j == 8 {
        NoAmpersandAfterSpace(d, j);
      } else {
        NoAmpersandOffSpace(d, j);
      }
    }
  }

  /** Text whose first match is already " &" and a line break, with no whitespace after it, is left as it is. */
  lemma BreakKeepsBrokenText(s: string, i: nat)
    requires FindAmpersand(s, 0) == Some(i)
    requires i + 3 <= |s| && s[i] == ' ' && s[i + 1] == '&' && s[i + 2] == '\n'
    requires RunEnd(s, i + 3, Space) == i + 3
    ensures BreakAtAmpersand(s) == s
  {
    assert s[i..i + 3] == " &\n";
    assert RunEnd(s, i + 1, Space) == i + 1;
    assert RunEnd(s, i, Space) == i + 1;
    assert RunEnd(s, i + 2, Space) == i + 3;
    assert s == s[..i] + s[i..i + 3] + s[i + 3..];
  }

  /** The default headline already carries its line break after the ampersand. */
  lemma DefaultAlreadyBroken(d: string)
    requires d == DefaultHeadline
    ensures BreakAtAmpersand(d) == d
  {
    DefaultFindsBreak();
    DefaultBreakChars();
    BreakKeepsBrokenText(d, 18);
  }

  lemma DefaultFindsBreak()
    ensures FindAmpersand(DefaultHeadline, 0) == Some(18)
  {
    DefaultAmpersandAt();
    DefaultNoEarlierAmpersand();
    FindsLeftmostAmpersand(DefaultHeadline, 18, 0);
  }

  lemma DefaultBreakChars()
    ensures |DefaultHeadline| > 21
    ensures DefaultHeadline[18] == ' ' && DefaultHeadline[19] == '&' && DefaultHeadline[20] == '\n'
    ensures RunEnd(DefaultHeadline, 21, Space) == 21
  {
    var a, b := "Feel the authentic", " &\noriginal taste from us";
    assert DefaultHeadline == a + b;
    assert b[3] == 'o';
  }

  lemma SecondLineUnbroken()
    ensures '\n' !in SecondLine
  {
    var a, b := "original ", "taste from us";
    assert SecondLine == a + b;
    assert '\n' !in a;
    assert '\n' !in b;
  }

  lemma SplitTwo(a: string, b: string)
    requires '\n' !in a && '\n' !in b
    ensures SplitLines(a + "\n" + b) == [a, b]
  {
    SplitAtBreak(a, b);
    SplitWithoutBreak(b);
  }

  lemma DefaultSplit()
    ensures SplitLines(DefaultHeadline) == [FirstLine, SecondLine]
  {
    assert DefaultHeadline == FirstLine + "\n" + SecondLine;
    assert forall i :: 0 <= i < |FirstLine| ==> FirstLine[i] != '\n';
    SecondLineUnbroken();
    SplitTwo(FirstLine, SecondLine);
  }

  lemma DefaultHeadlineLines()
    ensures HeadlineLines(None) == [FirstLine, SecondLine]
  {
    DefaultAlreadyBroken(DefaultHeadline);
    DefaultSplit();
    assert NonEmpty([FirstLine, SecondLine]) == [FirstLine] + NonEmpty([SecondLine]);
  }

  /** A match needs every prefix character in place. */
  lemma NoMatchWithout(s: string, j: int, prefix: string, cls: CharClass, k: nat)
    requires 0 <= j && k < |prefix| && (j + k < |s| ==> s[j + k] != prefix[k])
    ensures !MatchAt(s, j, prefix, cls)
  {
    assert j + |prefix| <= |s| ==> s[j..j + |prefix|][k] == s[j + k];
  }

  /** The search finds the leftmost match. */
  lemma {:induction false} FindsLeftmostMatch(s: string, prefix: string, cls: CharClass, i: nat, from: nat)
    requires from <= i && MatchAt(s, i, prefix, cls)
    requires forall j :: from <= j < i ==> !MatchAt(s, j, prefix, cls)
    ensures FindMatch(s, prefix, cls, from) == Some(i)
    decreases i - from
  {
    if from < i {
      FindsLeftmostMatch(s, prefix, cls, i, from + 1);
    }
  }

  lemma WatchLinkExample()
    ensures EmbedUrl("youtube.com/watch?v=ab&t=1") == Some(YouTubeEmbed("ab"))
  {
    var u := "youtube.com/watch?v=ab&t=1";
    assert u[0..20] == WatchPrefix;
    assert MatchAt(u, 0, WatchPrefix, NotAmpersand);
    FindsLeftmostMatch(u, WatchPrefix, NotAmpersand, 0, 0);
    forall j | 0 <= j < 18 ensures !MatchAt(u, j, IdPrefix, NotAmpersand) {
      assert u[j + 1] != '=';
      NoMatchWithout(u, j, IdPrefix, NotAmpersand, 1);
    }
    assert u[18..20] == IdPrefix;
    assert MatchAt(u, 18, IdPrefix, NotAmpersand);
    FindsLeftmostMatch(u, IdPrefix, NotAmpersand, 18, 0);
    assert RunEnd(u, 20, NotAmpersand) == 22;
    assert Capture(u, 18, IdPrefix, NotAmpersand) == "ab";
    assert FirstCapture(u, IdPrefix, NotAmpersand) == Some("ab");
  }

  lemma VimeoLinkExample()
    ensures EmbedUrl("vimeo.com/42") == Some(VimeoEmbed("42"))
  {
    var u := "vimeo.com/42";
    assert !Matches(u, WatchPrefix, NotAmpersand);
    forall j | 0 <= j < 3 ensures !MatchAt(u, j, ShortPrefix, NotQuestionMark) {
      assert u[j] != 'y';
    }
    assert !Matches(u, ShortPrefix, NotQuestionMark);
    assert FindMatch(u, WatchPrefix, NotAmpersand, 0).None?;
    assert FindMatch(u, ShortPrefix, NotQuestionMark, 0).None?;
    assert u[0..10] == VimeoPrefix;
    assert MatchAt(u, 0, VimeoPrefix, Digit);
    assert FindMatch(u, VimeoPrefix, Digit, 0) == Some(0);
    assert RunEnd(u, 10, Digit) == 12;
    assert Capture(u, 0, VimeoPrefix, Digit) == "42";
  }

  lemma ShortLinkExample()
    ensures EmbedUrl("youtu.be/ab?t=1") == Some(YouTubeEmbed("ab"))
  {
    var u := "youtu.be/ab?t=1";
    assert !Matches(u, WatchPrefix, NotAmpersand);
    assert u[0..9] == ShortPrefix;
    assert MatchAt(u, 0, ShortPrefix, NotQuestionMark);
    assert RunEnd(u, 9, NotQuestionMark) == 11;
    assert FindMatch(u, WatchPrefix, NotAmpersand, 0).None?;
    assert FindMatch(u, ShortPrefix, NotQuestionMark, 0) == Some(0);
    assert Capture(u, 0, ShortPrefix, NotQuestionMark) == "ab";
    assert FirstCapture(u, ShortPrefix, NotQuestionMark) == Some("ab");
  }
}
