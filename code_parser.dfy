// `_parse_code`: pull the code out of a completion reply.
//
// The Python code searches the reply with the pattern ```{language}(.*?)```
// under DOTALL. With a language tag free of regex metacharacters that
// pattern matches literal text only, so the search is modelled as literal
// substring search: the leftmost position where the opening fence
// "```" + language starts and from which a closing "```" follows, and the
// shortest capture (the first closing fence after the opening).

module CodeParser {
  import opened Types

  const Fence: string := "```"

  /** The opening fence the pattern looks for. */
  function Opening(language: string): (o: string)
    ensures |o| == |Fence| + |language|
    ensures o[..|Fence|] == Fence && o[|Fence|..] == language
  {
    Fence + language
  }

  /** `pat` occurs in `s` starting at index `i`. */
  predicate OccursAt(s: string, pat: string, i: nat)
  {
    i + |pat| <= |s| && s[i..i + |pat|] == pat
  }

  /** The regex matches at start `i` with its closing fence at `j`: the
      opening fence is at `i` and a closing fence starts at or after its end. */
  predicate IsMatch(s: string, language: string, i: nat, j: nat)
  {
    OccursAt(s, Opening(language), i) && i + |Opening(language)| <= j && OccursAt(s, Fence, j)
  }

  ghost predicate HasMatch(s: string, language: string)
  {
    exists i: nat, j: nat :: IsMatch(s, language, i, j)
  }

  /** The match `re.search` reports: leftmost start, then the shortest
      (non-greedy) capture from that start. */
  ghost predicate IsSearchMatch(s: string, language: string, i: nat, j: nat)
    ensures IsSearchMatch(s, language, i, j) ==> i + |Opening(language)| <= j && j + |Fence| <= |s|
  {
    IsMatch(s, language, i, j) &&
    (forall i': nat, j': nat :: IsMatch(s, language, i', j') ==> i <= i') &&
    (forall j': nat :: IsMatch(s, language, i, j') ==> j <= j')
  }

  /** First occurrence of `pat` in `s` at or after `from`. */
  function FindFrom(s: string, pat: string, from: nat): (r: Option<nat>)
    decreases |s| - from
    ensures r.Some? ==> from <= r.value && OccursAt(s, pat, r.value)
    ensures r.Some? ==> forall k: nat :: from <= k < r.value ==> !OccursAt(s, pat, k)
    ensures r.None? ==> forall k: nat :: from <= k ==> !OccursAt(s, pat, k)
  {
    if from + |pat| > |s| then None
    else if s[from..from + |pat|] == pat then Some(from)
    else FindFrom(s, pat, from + 1)
  }

  /** `_parse_code(rsp, language)`: the captured text of the search match,
      or the whole reply when the pattern does not match. */
  function ParseCode(rsp: string, language: string): (code: string)
    ensures HasMatch(rsp, language) ==>
      exists i: nat, j: nat :: IsSearchMatch(rsp, language, i, j) && code == rsp[i + |Opening(language)|..j]
    ensures !HasMatch(rsp, language) ==> code == rsp
  {
    var open := Opening(language);
    match FindFrom(rsp, open, 0)
    case None =>
      assert !HasMatch(rsp, language);
      rsp
    case Some(i) =>
      match FindFrom(rsp, Fence, i + |open|)
      case None =>
        NoMatchAfterFirstOpening(rsp, language, i);
        rsp
      case Some(j) =>
        assert IsSearchMatch(rsp, language, i, j);
        rsp[i + |open|..j]
  }

  /** If the leftmost opening fence has no closing fence after it, the
      pattern matches nowhere: every later opening ends later still. */
  lemma NoMatchAfterFirstOpening(s: string, language: string, i: nat)
    requires OccursAt(s, Opening(language), i)
    requires forall k: nat :: k < i ==> !OccursAt(s, Opening(language), k)
    requires forall k: nat :: i + |Opening(language)| <= k ==> !OccursAt(s, Fence, k)
    ensures !HasMatch(s, language)
  {
    forall i': nat, j': nat ensures !IsMatch(s, language, i', j') {
      if OccursAt(s, Opening(language), i') {
        assert i <= i';
      }
    }
  }

  /** The search match, when there is one, is unique. */
  lemma SearchMatchUnique(s: string, language: string, i1: nat, j1: nat, i2: nat, j2: nat)
    requires IsSearchMatch(s, language, i1, j1) && IsSearchMatch(s, language, i2, j2)
    ensures i1 == i2 && j1 == j2
  {
  }

  /** Match case: the result is exactly the text between the leftmost
      opening fence tagged `language` and the nearest closing fence after it. */
  lemma {:induction false} ParseCodeMatch(rsp: string, language: string, i: nat, j: nat)
    requires IsSearchMatch(rsp, language, i, j)
    ensures ParseCode(rsp, language) == rsp[i + |Opening(language)|..j]
  {
    assert HasMatch(rsp, language);
    var i': nat, j': nat :| IsSearchMatch(rsp, language, i', j') &&
      ParseCode(rsp, language) == rsp[i' + |Opening(language)|..j'];
    SearchMatchUnique(rsp, language, i, j, i', j');
  }

  /** The text between the opening fence at `i` and the closing fence at `j`. */
  ghost function Captured(s: string, language: string, i: nat, j: nat): (c: string)
    requires IsMatch(s, language, i, j)
  {
    s[i + |Opening(language)|..j]
  }

  /** The text captured by the search match holds no fence: a fence inside
      it would have been a nearer closing fence. */
  lemma CaptureHasNoFence(s: string, language: string, i: nat, j: nat)
    requires IsSearchMatch(s, language, i, j)
    ensures forall k: nat :: !OccursAt(Captured(s, language, i, j), Fence, k)
  {
    var a := i + |Opening(language)|;
    var code := Captured(s, language, i, j);
    forall k: nat | OccursAt(code, Fence, k)
      ensures false
    {
      OccursInSlice(s, a, j, Fence, k);
      assert IsMatch(s, language, i, a + k);
    }
  }

  /** In the match case the captured code holds no fence and is a slice of
      the reply that leaves room for both fences and the tag. */
  lemma ParseCodeCapture(rsp: string, language: string)
    requires HasMatch(rsp, language)
    ensures forall k: nat :: !OccursAt(ParseCode(rsp, language), Fence, k)
    ensures exists a: nat :: OccursAt(rsp, ParseCode(rsp, language), a)
    ensures |ParseCode(rsp, language)| + 2 * |Fence| + |language| <= |rsp|
  {
    var code := ParseCode(rsp, language);
    var i: nat, j: nat :| IsSearchMatch(rsp, language, i, j) && code == rsp[i + |Opening(language)|..j];
    CaptureHasNoFence(rsp, language, i, j);
    assert code == Captured(rsp, language, i, j);
    assert OccursAt(rsp, code, i + |Opening(language)|);
  }

  /** Fallback: when no opening fence tagged `language` has a closing fence
      after it, the reply comes back unchanged. */
  lemma ParseCodeFallback(rsp: string, language: string)
    requires forall i: nat :: OccursAt(rsp, Opening(language), i) ==>
      forall j: nat :: i + |Opening(language)| <= j ==> !OccursAt(rsp, Fence, j)
    ensures ParseCode(rsp, language) == rsp
  {
  }

  /** A reply that is exactly one fenced block tagged `language` yields the
      text inside the fences, with its surrounding newlines kept, provided
      the text holds no fence and does not end in a backtick (otherwise the
      closing fence would start earlier). */
  lemma {:induction false} ParseCodeSingleBlock(language: string, body: string)
    requires forall k: nat :: !OccursAt(body, Fence, k)
    requires body == [] || body[|body| - 1] != '`'
    ensures ParseCode(Opening(language) + body + Fence, language) == body
  {
    var s := Opening(language) + body + Fence;
    var o := |Opening(language)|;
    var j := o + |body|;
    assert s[0..o] == Opening(language);
    assert s[j..j + |Fence|] == Fence;
    assert s[o..j] == body;
    forall j': nat | IsMatch(s, language, 0, j') && j' < j
      ensures false
    {
      // a fence inside the body contradicts the first requirement; one
      // reaching past the body covers its last character
      if j' + |Fence| <= j {
        SliceOccurs(s, o, j, Fence, j');
      } else {
        FenceCovers(s, j', j - 1);
      }
    }
    assert IsSearchMatch(s, language, 0, j);
    ParseCodeMatch(s, language, 0, j);
  }

  /** The tag is matched as a prefix and the capture is returned raw: a
      block tagged `language + suffix` (`python3` for `python`) matches, and
      the rest of its tag stays at the front of the code. */
  lemma ParseCodeKeepsTagSuffix(language: string, suffix: string, code: string)
    requires forall k: nat :: !OccursAt(suffix + code, Fence, k)
    requires code != [] && code[|code| - 1] != '`'
    ensures ParseCode(Fence + (language + suffix) + code + Fence, language) == suffix + code
  {
    var body := suffix + code;
    assert body[|body| - 1] == code[|code| - 1];
    assert Fence + (language + suffix) + code + Fence == Opening(language) + body + Fence;
    ParseCodeSingleBlock(language, body);
  }

  /** An occurrence inside a slice is an occurrence in the whole string. */
  lemma OccursInSlice(s: string, a: nat, b: nat, pat: string, k: nat)
    requires a <= b <= |s| && OccursAt(s[a..b], pat, k)
    ensures OccursAt(s, pat, a + k)
  {
    var x, y := s[a..b][k..k + |pat|], s[a + k..a + k + |pat|];
    assert forall t :: 0 <= t < |x| ==> x[t] == y[t];
  }

  /** An occurrence lying inside `s[a..b]` is an occurrence in that slice. */
  lemma SliceOccurs(s: string, a: nat, b: nat, pat: string, p: nat)
    requires a <= p && p + |pat| <= b <= |s| && OccursAt(s, pat, p)
    ensures OccursAt(s[a..b], pat, p - a)
  {
    var x, y := s[a..b][p - a..p - a + |pat|], s[p..p + |pat|];
    assert forall t :: 0 <= t < |x| ==> x[t] == y[t];
  }

  lemma FenceCovers(s: string, p: nat, q: nat)
    requires OccursAt(s, Fence, p) && p <= q < p + |Fence|
    ensures s[q] == '`'
  {
    assert s[q] == s[p..p + |Fence|][q - p];
  }
}
