/**
 * The keyword matcher of GIMP's action-search dialog
 * (action_search_match_keyword in app/dialogs/action-search-dialog.c).
 *
 * A typed query and an action label (and, as a fallback, its tooltip) are
 * folded into word tokens by the locale-aware tokenizer; the action matches
 * when every query token is a prefix of some label or tooltip token, and the
 * match is ranked into a "section" from 0 (best) to 5 (weakest).
 */
module ActionMatch {
  import opened Optional

  /** What g_str_tokenize_and_fold returns: the folded tokens and their ASCII alternates. */
  datatype Folded = Folded(tokens: seq<string>, alternates: seq<string>)

  /** g_str_tokenize_and_fold with the configured UI language; its folding is not modelled. */
  type Tokenizer = string -> Folded

  /**
   * The parts of a GtkAction the dialog reads: its name, its label (after
   * gimp_strip_uline has removed mnemonic underscores), its optional tooltip
   * and whether it is sensitive.
   */
  datatype Action = Action(name: string, labelText: string, tooltip: Option<string>, sensitive: bool)

  /** The verdict of the matcher: no match, or a match ranked in a section. */
  datatype Outcome = NoMatch | Matched(section: int)

  /** g_str_has_prefix (s, prefix). */
  predicate HasPrefix(s: string, prefix: string)
  {
    prefix <= s
  }

  /** g_utf8_get_char: the first character, or the terminating NUL of an empty string. */
  function FirstChar(s: string): char
  {
    if |s| == 0 then '\0' else s[0]
  }

  /** Some token of ts starts with key. */
  predicate Prefixes(ts: seq<string>, key: string)
  {
    exists j :: 0 <= j < |ts| && HasPrefix(ts[j], key)
  }

  /** Some token or alternate of f starts with key. */
  predicate InFolded(f: Folded, key: string)
  {
    Prefixes(f.tokens, key) || Prefixes(f.alternates, key)
  }

  /** The index at which a `for (j = 0; ts[j] != NULL; j++)` scan for key stops with a hit. */
  function FirstWithPrefix(ts: seq<string>, key: string): (r: Option<nat>)
    ensures r.Some? ==> r.value < |ts| && HasPrefix(ts[r.value], key)
    ensures r.Some? ==> forall j :: 0 <= j < r.value ==> !HasPrefix(ts[j], key)
    ensures r.None? <==> !Prefixes(ts, key)
  {
    if |ts| == 0 then None
    else if HasPrefix(ts[0], key) then Some(0)
    else
      match FirstWithPrefix(ts[1..], key)
      case None => None
      case Some(j) => Some(j + 1)
  }

  /**
   * The pair (found, j) that one pass of the label loop (lines 718-745) leaves
   * at the label one_matched: j indexes labelWords.tokens when key prefixes one
   * of them, otherwise labelWords.alternates, and when neither scan succeeds it
   * is the value |labelWords.alternates| at which the second scan stopped.
   */
  function LabelLookup(labelWords: Folded, key: string): (r: (bool, nat))
  {
    match FirstWithPrefix(labelWords.tokens, key)
    case Some(j) => (true, j)
    case None =>
      match FirstWithPrefix(labelWords.alternates, key)
      case Some(j) => (true, j)
      case None => (false, |labelWords.alternates|)
  }

  /** The index j recorded for each key token in turn. */
  function LabelIndices(keys: seq<string>, labelWords: Folded): seq<nat>
  {
    seq(|keys|, i requires 0 <= i < |keys| => LabelLookup(labelWords, keys[i]).1)
  }

  /** The recorded indices never go down. */
  predicate NonDecreasing(idx: seq<nat>)
  {
    forall i, k :: 0 <= i < k < |idx| ==> idx[i] <= idx[k]
  }

  /** Key token i was found at index i, for every i. */
  predicate Aligned(idx: seq<nat>)
  {
    forall i :: 0 <= i < |idx| ==> idx[i] == i
  }

  /**
   * Lines 708-754: every key token must prefix a label token or alternate;
   * the section is 1 when the indices are ordered and start-aligned, 2 when
   * only ordered, 3 otherwise.
   */
  function LabelStep(keys: seq<string>, labelWords: Folded): Outcome
  {
    if forall i :: 0 <= i < |keys| ==> InFolded(labelWords, keys[i]) then
      var idx := LabelIndices(keys, labelWords);
      Matched(if NonDecreasing(idx) then (if Aligned(idx) then 1 else 2) else 3)
    else
      NoMatch
  }

  // The flags of the label loop, as functions of the key tokens seen so far.

  /** matched: every key token so far reached one_matched by a hit. */
  predicate AllFound(keys: seq<string>, labelWords: Folded)
  {
    |keys| == 0 || (AllFound(keys[..|keys| - 1], labelWords) && LabelLookup(labelWords, keys[|keys| - 1]).0)
  }

  /** match_ordered: previous_matched > j never held. */
  predicate Ordered(idx: seq<nat>)
  {
    |idx| <= 1 || (Ordered(idx[..|idx| - 1]) && idx[|idx| - 2] <= idx[|idx| - 1])
  }

  /** match_start: i != j never held. */
  predicate StartAligned(idx: seq<nat>)
  {
    |idx| == 0 || (StartAligned(idx[..|idx| - 1]) && idx[|idx| - 1] == |idx| - 1)
  }

  /** Lines 688-706: one key token of two characters c1 c2 against the first letters of two label words. */
  predicate InitialsMatch(keys: seq<string>, labelWords: Folded)
  {
    |keys| == 1 && |keys[0]| == 2 &&
    (StartsWithInitials(labelWords.tokens, keys[0][0], keys[0][1]) ||
     StartsWithInitials(labelWords.alternates, keys[0][0], keys[0][1]))
  }

  predicate StartsWithInitials(ts: seq<string>, c1: char, c2: char)
  {
    |ts| > 1 && FirstChar(ts[0]) == c1 && FirstChar(ts[1]) == c2
  }

  /**
   * The guard of the tooltip step (lines 756-757, 767): the first key token
   * has more than two characters and the tooltip folds to at least one token.
   */
  predicate TooltipApplies(keys: seq<string>, tooltip: Option<Folded>)
  {
    |keys| > 0 && |keys[0]| > 2 && tooltip.Some? && |tooltip.value.tokens| > 0
  }

  /** Lines 767-818: tooltip tokens first, the label as a fallback; section 5 when some key was found only in the label. */
  function TooltipStep(keys: seq<string>, tooltip: Folded, labelWords: Folded): Outcome
    requires |keys| > 0 && |tooltip.tokens| > 0
  {
    if forall i :: 0 <= i < |keys| ==> InFolded(tooltip, keys[i]) || InFolded(labelWords, keys[i]) then
      var mixed := exists i :: 0 <= i < |keys| && !InFolded(tooltip, keys[i]) && InFolded(labelWords, keys[i]);
      Matched(if mixed then 5 else 4)
    else
      NoMatch
  }

  /** The matcher on folded tokens, for a non-NULL keyword. */
  function KeywordMatch(keys: seq<string>, labelWords: Folded, tooltip: Option<Folded>): (r: Outcome)
    ensures r.Matched? ==> 1 <= r.section <= 5
  {
    if InitialsMatch(keys, labelWords) then Matched(1)
    else if |labelWords.tokens| > 0 && LabelStep(keys, labelWords).Matched? then LabelStep(keys, labelWords)
    else if TooltipApplies(keys, tooltip) then TooltipStep(keys, tooltip.value, labelWords)
    else NoMatch
  }

  function FoldTooltip(action: Action, fold: Tokenizer): Option<Folded>
  {
    if action.tooltip.Some? then Some(fold(action.tooltip.value)) else None
  }

  /** action_search_match_keyword as a pure function: NULL keyword matches everything in section 0. */
  function ActionMatches(keyword: Option<string>, action: Action, fold: Tokenizer): (r: Outcome)
    ensures keyword.None? ==> r == Matched(0)
    ensures keyword.Some? && r.Matched? ==> 1 <= r.section <= 5
  {
    match keyword
    case None => Matched(0)
    case Some(k) => KeywordMatch(fold(k).tokens, fold(action.labelText), FoldTooltip(action, fold))
  }

  // The imperative matcher

  /** One `for (j = 0; ts[j] != NULL; j++) if (g_str_has_prefix (ts[j], key)) goto ...` scan; j ends at |ts| on a miss. */
  method ScanForPrefix(ts: seq<string>, key: string) returns (found: bool, j: nat)
    ensures found <==> Prefixes(ts, key)
    ensures found ==> FirstWithPrefix(ts, key) == Some(j)
    ensures !found ==> j == |ts|
  {
    j := 0;
    while j < |ts|
      invariant j <= |ts|
      invariant forall k :: 0 <= k < j ==> !HasPrefix(ts[k], key)
    {
      if HasPrefix(ts[j], key) {
        return true, j;
      }
      j := j + 1;
    }
    found := false;
  }

  /** The two scans of one label-loop pass (lines 721-734): label tokens first, then alternates. */
  method ScanLabel(labelWords: Folded, key: string) returns (found: bool, j: nat)
    ensures found == LabelLookup(labelWords, key).0 && j == LabelLookup(labelWords, key).1
  {
    found, j := ScanForPrefix(labelWords.tokens, key);
    if !found {
      found, j := ScanForPrefix(labelWords.alternates, key);
    }
  }

  // What the flags of the label loop mean

  lemma LookupMeaning(labelWords: Folded, key: string)
    ensures LabelLookup(labelWords, key).0 <==> InFolded(labelWords, key)
    ensures !LabelLookup(labelWords, key).0 ==> LabelLookup(labelWords, key).1 == |labelWords.alternates|
    ensures Prefixes(labelWords.tokens, key) ==> LabelLookup(labelWords, key).1 < |labelWords.tokens|
    ensures Prefixes(labelWords.tokens, key) ==> HasPrefix(labelWords.tokens[LabelLookup(labelWords, key).1], key)
    ensures !Prefixes(labelWords.tokens, key) && Prefixes(labelWords.alternates, key) ==>
              LabelLookup(labelWords, key).1 < |labelWords.alternates| &&
              HasPrefix(labelWords.alternates[LabelLookup(labelWords, key).1], key)
  {
  }

  lemma {:induction false} AllFoundMeaning(keys: seq<string>, labelWords: Folded)
    ensures AllFound(keys, labelWords) <==> forall i :: 0 <= i < |keys| ==> InFolded(labelWords, keys[i])
  {
    if |keys| > 0 {
      var init := keys[..|keys| - 1];
      AllFoundMeaning(init, labelWords);
      LookupMeaning(labelWords, keys[|keys| - 1]);
      assert forall i :: 0 <= i < |init| ==> init[i] == keys[i];
    }
  }

  lemma {:induction false} OrderedMeaning(idx: seq<nat>)
    ensures Ordered(idx) <==> NonDecreasing(idx)
  {
    if |idx| > 1 {
      var init := idx[..|idx| - 1];
      OrderedMeaning(init);
      assert forall i :: 0 <= i < |init| ==> init[i] == idx[i];
      if Ordered(idx) {
        forall i, k | 0 <= i < k < |idx| ensures idx[i] <= idx[k] {
          if k == |idx| - 1 && i < k - 1 {
            assert idx[i] <= idx[k - 1];
          }
        }
      }
    }
  }

  lemma {:induction false} StartAlignedMeaning(idx: seq<nat>)
    ensures StartAligned(idx) <==> Aligned(idx)
  {
    if |idx| > 0 {
      var init := idx[..|idx| - 1];
      StartAlignedMeaning(init);
      assert forall i :: 0 <= i < |init| ==> init[i] == idx[i];
    }
  }

  /** The label step's verdict read off the three flags the label loop ends with. */
  lemma LabelStepByFlags(keys: seq<string>, labelWords: Folded)
    ensures LabelStep(keys, labelWords) ==
      if !AllFound(keys, labelWords) then NoMatch
      else
        var idx := LabelIndices(keys, labelWords);
        Matched(if Ordered(idx) then (if StartAligned(idx) then 1 else 2) else 3)
  {
    AllFoundMeaning(keys, labelWords);
    OrderedMeaning(LabelIndices(keys, labelWords));
    StartAlignedMeaning(LabelIndices(keys, labelWords));
  }

  /** How one more key token extends the three flags of the label loop. */
  lemma LabelFlagsStep(keys: seq<string>, labelWords: Folded, i: nat)
    requires i < |keys|
    ensures AllFound(keys[..i + 1], labelWords) == (AllFound(keys[..i], labelWords) && LabelLookup(labelWords, keys[i]).0)
    ensures var idx := LabelIndices(keys, labelWords);
      && idx[i] == LabelLookup(labelWords, keys[i]).1
      && Ordered(idx[..i + 1]) == (Ordered(idx[..i]) && (i == 0 || idx[i - 1] <= idx[i]))
      && StartAligned(idx[..i + 1]) == (StartAligned(idx[..i]) && idx[i] == i)
  {
    var idx := LabelIndices(keys, labelWords);
    assert keys[..i + 1][..i] == keys[..i];
    assert idx[..i + 1][..i] == idx[..i];
  }

  /** Lines 708-753: the label loop with its flags previous_matched, match_start and match_ordered. */
  method MatchLabel(keyTokens: seq<string>, labelWords: Folded) returns (matched: bool, section: int)
    ensures matched <==> LabelStep(keyTokens, labelWords).Matched?
    ensures matched ==> section == LabelStep(keyTokens, labelWords).section
  {
    var previousMatched: int := -1;
    var matchStart, matchOrdered := true, true;
    ghost var idx := LabelIndices(keyTokens, labelWords);
    matched, section := true, 0;
    for i := 0 to |keyTokens|
      invariant matched <==> AllFound(keyTokens[..i], labelWords)
      invariant previousMatched == if i == 0 then -1 else idx[i - 1]
      invariant matchOrdered <==> Ordered(idx[..i])
      invariant matchStart <==> StartAligned(idx[..i])
    {
      var found, j := ScanLabel(labelWords, keyTokens[i]);
      if !found {
        matched := false;
      }
      // one_matched:
      if previousMatched > j {
        matchOrdered := false;
      }
      previousMatched := j;
      if i != j {
        matchStart := false;
      }
      LabelFlagsStep(keyTokens, labelWords, i);
    }
    assert keyTokens[..|keyTokens|] == keyTokens && idx[..|keyTokens|] == idx;
    LabelStepByFlags(keyTokens, labelWords);
    if matched {
      section := if matchOrdered then (if matchStart then 1 else 2) else 3;
    }
  }

  /** Lines 767-818: the tooltip loop, falling back on the label and flagging mixed_match. */
  method MatchTooltip(keyTokens: seq<string>, tooltipWords: Folded, labelWords: Folded) returns (matched: bool, section: int)
    requires |keyTokens| > 0 && |tooltipWords.tokens| > 0
    ensures matched <==> TooltipStep(keyTokens, tooltipWords, labelWords).Matched?
    ensures matched ==> section == TooltipStep(keyTokens, tooltipWords, labelWords).section
  {
    var mixedMatch := false;
    matched, section := true, 0;
    for i := 0 to |keyTokens|
      invariant matched <==> forall k :: 0 <= k < i ==> InFolded(tooltipWords, keyTokens[k]) || InFolded(labelWords, keyTokens[k])
      invariant mixedMatch <==> exists k :: 0 <= k < i && !InFolded(tooltipWords, keyTokens[k]) && InFolded(labelWords, keyTokens[k])
    {
      var found, j := ScanForPrefix(tooltipWords.tokens, keyTokens[i]);
      if !found {
        found, j := ScanForPrefix(tooltipWords.alternates, keyTokens[i]);
      }
      if !found {
        found, j := ScanForPrefix(labelWords.tokens, keyTokens[i]);
        if found {
          mixedMatch := true;
        }
      }
      if !found {
        found, j := ScanForPrefix(labelWords.alternates, keyTokens[i]);
        if found {
          mixedMatch := true;
        }
      }
      if !found {
        matched := false;
      }
      // one_tooltip_matched:
    }
    if matched {
      section := if mixedMatch then 5 else 4;
    }
  }

  /**
   * action_search_match_keyword: the three steps in the source's order.
   * section is meaningful only when matched holds (the source leaves
   * *section untouched otherwise).
   */
  method MatchKeyword(action: Action, keyword: Option<string>, fold: Tokenizer) returns (matched: bool, section: int)
    ensures matched <==> ActionMatches(keyword, action, fold).Matched?
    ensures matched ==> section == ActionMatches(keyword, action, fold).section
  {
    if keyword.None? {
      return true, 0;
    }
    var keyTokens := fold(keyword.value).tokens;
    var labelWords := fold(action.labelText);
    matched, section := false, 0;

    if |keyTokens| == 1 && |keyTokens[0]| == 2 {
      var c1, c2 := keyTokens[0][0], keyTokens[0][1];
      if (|labelWords.tokens| > 1 && FirstChar(labelWords.tokens[0]) == c1 && FirstChar(labelWords.tokens[1]) == c2) ||
         (|labelWords.alternates| > 1 && FirstChar(labelWords.alternates[0]) == c1 && FirstChar(labelWords.alternates[1]) == c2)
      {
        matched, section := true, 1;
      }
    }

    if !matched && |labelWords.tokens| > 0 {
      matched, section := MatchLabel(keyTokens, labelWords);
    }

    // The source reads key_tokens[0] here; with no key token that is the
    // array's NULL terminator, taken as length 0.
    var firstKeyLength := if |keyTokens| > 0 then |keyTokens[0]| else 0;
    if !matched && firstKeyLength > 2 && action.tooltip.Some? {
      var tooltipWords := fold(action.tooltip.value);
      if |tooltipWords.tokens| > 0 {
        matched, section := MatchTooltip(keyTokens, tooltipWords, labelWords);
      }
    }
  }

  // Properties of the matcher

  /**
   * Lines 688-706: a two-letter query naming the initials of the first two
   * label tokens, or of the first two label alternates, matches in section 1.
   */
  lemma InitialsRule(keys: seq<string>, labelWords: Folded, tooltip: Option<Folded>)
    requires |keys| == 1 && |keys[0]| == 2
    requires StartsWithInitials(labelWords.tokens, keys[0][0], keys[0][1]) ||
             StartsWithInitials(labelWords.alternates, keys[0][0], keys[0][1])
    ensures KeywordMatch(keys, labelWords, tooltip) == Matched(1)
  {
  }

  /**
   * Lines 708-745: once the initials rule has not fired and the label has a
   * token, the action matches on its label exactly when every key token
   * prefixes a label token or alternate; a failing key token does not stop
   * the others from being looked up.
   */
  lemma LabelStepDecides(keys: seq<string>, labelWords: Folded, tooltip: Option<Folded>)
    requires !InitialsMatch(keys, labelWords) && |labelWords.tokens| > 0
    ensures (forall i :: 0 <= i < |keys| ==> InFolded(labelWords, keys[i])) ==>
              KeywordMatch(keys, labelWords, tooltip).Matched? && KeywordMatch(keys, labelWords, tooltip).section <= 3
    ensures (exists i :: 0 <= i < |keys| && !InFolded(labelWords, keys[i])) ==>
              KeywordMatch(keys, labelWords, tooltip) == (if TooltipApplies(keys, tooltip) then TooltipStep(keys, tooltip.value, labelWords) else NoMatch)
  {
  }

  /** Lines 715-752: with no key token at all, a label with a token matches vacuously in section 1. */
  lemma EmptyQuery(labelWords: Folded, tooltip: Option<Folded>)
    ensures |labelWords.tokens| > 0 ==> KeywordMatch([], labelWords, tooltip) == Matched(1)
    ensures |labelWords.tokens| == 0 ==> KeywordMatch([], labelWords, tooltip) == NoMatch
  {
    assert LabelIndices([], labelWords) == [];
  }

  /** key starts the i-th label token, or the i-th label alternate. */
  predicate PrefixesWordAt(labelWords: Folded, i: nat, key: string)
  {
    (i < |labelWords.tokens| && HasPrefix(labelWords.tokens[i], key)) ||
    (i < |labelWords.alternates| && HasPrefix(labelWords.alternates[i], key))
  }

  /**
   * Section 1 from the label step means key token i starts the i-th label
   * token, or, failing every label token, the i-th label alternate.
   */
  lemma SectionOneIsPositional(keys: seq<string>, labelWords: Folded)
    requires LabelStep(keys, labelWords) == Matched(1)
    ensures forall i :: 0 <= i < |keys| ==> PrefixesWordAt(labelWords, i, keys[i])
  {
    var idx := LabelIndices(keys, labelWords);
    forall i | 0 <= i < |keys|
      ensures PrefixesWordAt(labelWords, i, keys[i])
    {
      LookupMeaning(labelWords, keys[i]);
      assert idx[i] == i;
    }
  }

  /** Section 3 from the label step means the recorded indices went down somewhere. */
  lemma SectionThreeIsUnordered(keys: seq<string>, labelWords: Folded)
    requires LabelStep(keys, labelWords) == Matched(3)
    ensures exists i, k :: 0 <= i < k < |keys| && LabelLookup(labelWords, keys[k]).1 < LabelLookup(labelWords, keys[i]).1
  {
    var idx := LabelIndices(keys, labelWords);
    var i, k :| 0 <= i < k < |idx| && idx[k] < idx[i];
    assert LabelLookup(labelWords, keys[k]).1 < LabelLookup(labelWords, keys[i]).1;
  }

  /**
   * Lines 756-817: when neither the initials nor the label decided, a long
   * enough first key token and a tooltip with a token give a match exactly
   * when every key token prefixes a word of the tooltip or of the label.
   */
  lemma TooltipFallback(keys: seq<string>, labelWords: Folded, tooltip: Folded)
    requires !InitialsMatch(keys, labelWords)
    requires |labelWords.tokens| == 0 || LabelStep(keys, labelWords).NoMatch?
    requires |keys| > 0 && |keys[0]| > 2 && |tooltip.tokens| > 0
    ensures KeywordMatch(keys, labelWords, Some(tooltip)).Matched? <==>
              forall i :: 0 <= i < |keys| ==> InFolded(tooltip, keys[i]) || InFolded(labelWords, keys[i])
    ensures KeywordMatch(keys, labelWords, Some(tooltip)) == Matched(4) <==>
              forall i :: 0 <= i < |keys| ==> InFolded(tooltip, keys[i])
    ensures KeywordMatch(keys, labelWords, Some(tooltip)) == Matched(5) <==>
              (forall i :: 0 <= i < |keys| ==> InFolded(tooltip, keys[i]) || InFolded(labelWords, keys[i])) &&
              (exists i :: 0 <= i < |keys| && !InFolded(tooltip, keys[i]))
  {
  }

  /** Every match is explained by the initials rule or by each key token prefixing a label or tooltip word. */
  lemma MatchIsExplained(keys: seq<string>, labelWords: Folded, tooltip: Option<Folded>)
    requires KeywordMatch(keys, labelWords, tooltip).Matched?
    ensures InitialsMatch(keys, labelWords) ||
            forall i :: 0 <= i < |keys| ==> InFolded(labelWords, keys[i]) || (tooltip.Some? && InFolded(tooltip.value, keys[i]))
    ensures KeywordMatch(keys, labelWords, tooltip).section >= 4 ==> TooltipApplies(keys, tooltip)
  {
  }

  // Worked examples: the label "Gaussian Blur..." and the tooltip "Smooths the image".

  function GaussianBlur(): Folded { Folded(["gaussian", "blur"], []) }
  function SmoothsImage(): Folded { Folded(["smooths", "the", "image"], []) }

  lemma InitialsExample()
    ensures KeywordMatch(["gb"], GaussianBlur(), None) == Matched(1)
  {
  }

  lemma PrefixExample()
    ensures KeywordMatch(["gaus"], GaussianBlur(), None) == Matched(1)
  {
    var lw := GaussianBlur();
    assert HasPrefix(lw.tokens[0], "gaus");
    assert LabelIndices(["gaus"], lw) == [0];
  }

  lemma NotAtStartExample()
    ensures KeywordMatch(["blur"], GaussianBlur(), None) == Matched(2)
  {
    var lw := GaussianBlur();
    assert !HasPrefix(lw.tokens[0], "blur") by { assert lw.tokens[0][0] != "blur"[0]; }
    assert HasPrefix(lw.tokens[1], "blur");
    var idx := LabelIndices(["blur"], lw);
    assert idx == [1];
    assert NonDecreasing(idx) && !Aligned(idx) by { assert idx[0] != 0; }
  }

  lemma OutOfOrderExample()
    ensures KeywordMatch(["blur", "gaussian"], GaussianBlur(), None) == Matched(3)
  {
    var lw := GaussianBlur();
    assert !HasPrefix(lw.tokens[0], "blur") by { assert lw.tokens[0][0] != "blur"[0]; }
    assert HasPrefix(lw.tokens[1], "blur");
    assert HasPrefix(lw.tokens[0], "gaussian");
    var idx := LabelIndices(["blur", "gaussian"], lw);
    assert idx == [1, 0];
    assert !NonDecreasing(idx) by { assert idx[0] > idx[1]; }
  }

  lemma NoMatchExample()
    ensures KeywordMatch(["xyz"], GaussianBlur(), Some(SmoothsImage())) == NoMatch
  {
    var lw, tt := GaussianBlur(), SmoothsImage();
    assert !HasPrefix(lw.tokens[0], "xyz") by { assert lw.tokens[0][0] != "xyz"[0]; }
    assert !HasPrefix(lw.tokens[1], "xyz") by { assert lw.tokens[1][0] != "xyz"[0]; }
    assert !HasPrefix(tt.tokens[0], "xyz") by { assert tt.tokens[0][0] != "xyz"[0]; }
    assert !HasPrefix(tt.tokens[1], "xyz") by { assert tt.tokens[1][0] != "xyz"[0]; }
    assert !HasPrefix(tt.tokens[2], "xyz") by { assert tt.tokens[2][0] != "xyz"[0]; }
  }

  lemma TooltipExample()
    ensures KeywordMatch(["smooths"], GaussianBlur(), Some(SmoothsImage())) == Matched(4)
  {
    var lw, tt := GaussianBlur(), SmoothsImage();
    assert HasPrefix(tt.tokens[0], "smooths");
    assert !HasPrefix(lw.tokens[0], "smooths") by { assert lw.tokens[0][0] != "smooths"[0]; }
    assert !HasPrefix(lw.tokens[1], "smooths") by { assert lw.tokens[1][0] != "smooths"[0]; }
  }

  lemma MixedExample()
    ensures KeywordMatch(["smooths", "blur"], GaussianBlur(), Some(SmoothsImage())) == Matched(5)
  {
    var lw, tt := GaussianBlur(), SmoothsImage();
    var keys := ["smooths", "blur"];
    assert HasPrefix(tt.tokens[0], keys[0]);
    assert HasPrefix(lw.tokens[1], keys[1]);
    assert !HasPrefix(lw.tokens[0], "smooths") by { assert lw.tokens[0][0] != "smooths"[0]; }
    assert !HasPrefix(lw.tokens[1], "smooths") by { assert lw.tokens[1][0] != "smooths"[0]; }
    assert !HasPrefix(tt.tokens[0], "blur") by { assert tt.tokens[0][0] != "blur"[0]; }
    assert !HasPrefix(tt.tokens[1], "blur") by { assert tt.tokens[1][0] != "blur"[0]; }
    assert !HasPrefix(tt.tokens[2], "blur") by { assert tt.tokens[2][0] != "blur"[0]; }
    assert !InFolded(lw, keys[0]) && !InFolded(tt, keys[1]);
    assert LabelStep(keys, lw) == NoMatch;
  }

  /**
   * The index recorded for a key token found among the alternates is an
   * alternates index: for the label "Vital Élan" (tokens vital and élan, the
   * single alternate elan) the query "vital elan" records indices 0 and 0 and
   * lands in section 2, not 1.
   */
  lemma AlternateIndexExample()
    ensures KeywordMatch(["vital", "elan"], Folded(["vital", "élan"], ["elan"]), None) == Matched(2)
  {
    var lw := Folded(["vital", "élan"], ["elan"]);
    assert HasPrefix(lw.tokens[0], "vital");
    assert HasPrefix(lw.alternates[0], "elan");
    assert !HasPrefix(lw.tokens[0], "elan") by { assert lw.tokens[0][0] != "elan"[0]; }
    assert !HasPrefix(lw.tokens[1], "elan") by { assert lw.tokens[1][0] != "elan"[0]; }
    assert !Prefixes(lw.tokens, "elan");
    assert LabelLookup(lw, "vital") == (true, 0);
    assert LabelLookup(lw, "elan") == (true, 0);
    var idx := LabelIndices(["vital", "elan"], lw);
    assert idx == [0, 0];
    assert NonDecreasing(idx) && !Aligned(idx) by { assert idx[1] != 1; }
  }
}
