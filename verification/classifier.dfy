/** The free-text link gate: is a text plausibly a YouTube link? A heuristic,
    not validation: a case-insensitive search for a host marker in the
    stripped text, once that text is at least ten characters long. */
module Classifier {
  import opened Text

  const MinLinkLength: nat := 10

  /** The two literal host markers of the pattern `(youtube\.com|youtu\.be)`;
      the dots are escaped, so they match only a dot. */
  const LongHost := "youtube.com"
  const ShortHost := "youtu.be"

  /** The lower-case pattern `p` occurs in `t` at offset `k`, ignoring the
      case of `t`'s letters (the pattern is compiled with IGNORECASE). */
  predicate MatchAt(t: string, k: nat, p: string) {
    k + |p| <= |t| && forall j :: 0 <= j < |p| ==> Lower(t[k + j]) == p[j]
  }

  predicate HostAt(t: string, k: nat) {
    MatchAt(t, k, LongHost) || MatchAt(t, k, ShortHost)
  }

  /** Some offset of `t` starts a host marker: what a regex search finds. */
  ghost predicate MentionsHost(t: string) {
    exists k: nat :: k < |t| && HostAt(t, k)
  }

  /** The leftmost-first scan a regex search performs, from offset `from`. */
  function SearchHost(t: string, from: nat): (found: bool)
    requires from <= |t|
    ensures found <==> exists k: nat :: from <= k < |t| && HostAt(t, k)
    decreases |t| - from
  {
    if from == |t| then false
    else HostAt(t, from) || SearchHost(t, from + 1)
  }

  /** The classifier: empty text and stripped text shorter than ten
      characters are rejected; otherwise the answer is whether the stripped
      text mentions a host marker (lemma `LooksLikeYoutubeUrlMeans`). */
  function LooksLikeYoutubeUrl(text: string): (r: bool)
    ensures r ==> |Strip(text)| >= MinLinkLength
    ensures |text| < MinLinkLength ==> !r
  {
    if text == [] then false
    else
      var t := Strip(text);
      if |t| < MinLinkLength then false
      else SearchHost(t, 0)
  }

  /** What the classifier accepts: exactly the texts whose stripped form is
      at least ten characters long and mentions a host marker somewhere. */
  lemma LooksLikeYoutubeUrlMeans(text: string)
    ensures LooksLikeYoutubeUrl(text) <==> |Strip(text)| >= MinLinkLength && MentionsHost(Strip(text))
  {
    if text == [] {
      assert |Strip(text)| == 0;
    }
  }

  lemma MentionsHostUpToCase(a: string, b: string)
    requires SameUpToCase(a, b)
    ensures MentionsHost(a) <==> MentionsHost(b)
  {
    forall k: nat, p: string | k + |p| <= |a|
      ensures MatchAt(a, k, p) <==> MatchAt(b, k, p)
    {
    }
    if MentionsHost(a) {
      var k: nat :| k < |a| && HostAt(a, k);
      assert HostAt(b, k);
    }
    if MentionsHost(b) {
      var k: nat :| k < |b| && HostAt(b, k);
      assert HostAt(a, k);
    }
  }

  /** Letter case never changes the answer. */
  lemma LinkIgnoresCase(a: string, b: string)
    requires SameUpToCase(a, b)
    ensures LooksLikeYoutubeUrl(a) == LooksLikeYoutubeUrl(b)
  {
    StripUpToCase(a, b);
    MentionsHostUpToCase(Strip(a), Strip(b));
    LooksLikeYoutubeUrlMeans(a);
    LooksLikeYoutubeUrlMeans(b);
  }

  /** In particular, ASCII upper-casing a text never changes the answer.
      Python's full `str.upper()` can change the length (`ß` becomes `SS`),
      which this does not cover. */
  lemma LinkIgnoresUpperCasing(t: string)
    ensures LooksLikeYoutubeUrl(UpperStr(t)) == LooksLikeYoutubeUrl(t)
  {
    UpperStrSameUpToCase(t);
    LinkIgnoresCase(UpperStr(t), t);
  }

  /** Surrounding whitespace never changes the answer. */
  lemma LinkIgnoresPadding(a: string, t: string, b: string)
    requires AllSpace(a) && AllSpace(b)
    ensures LooksLikeYoutubeUrl(a + t + b) == LooksLikeYoutubeUrl(t)
  {
    StripPadding(a, t, b);
    LooksLikeYoutubeUrlMeans(a + t + b);
    LooksLikeYoutubeUrlMeans(t);
  }

  /** A nine-character text is too short even though it holds a marker. */
  lemma BareMarkerRejected()
    ensures !LooksLikeYoutubeUrl("youtu.be/")
  {
  }
}
