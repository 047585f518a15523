/** The search of parseComplexWord and stripSuffix as a function on values:
    the sequence of finished candidates, in the order they are added to the
    list. The in-place search of module ComplexWords is proved to add
    exactly this sequence; what the analysis promises about it (every
    candidate is finished and reassembles the input word, the word itself
    is always among them) is proved here. */
module Searches {
  import opened Strings
  import opened AffixTables
  import opened WordStates
  import opened WordParts

  /** The condition every search step starts from: a well-formed candidate
      whose number fields, if it is a noun, are still unset. */
  ghost predicate Ready(s: WordState) {
    var ready := s.Valid() && (s.isNoun ==> s.NumberUnset());
    ready
  }

  // ---------------------------------------------------------------------
  // The facts each step of the search needs to go on: the next candidates
  // are ready and lower in the measure. They leave the word a candidate
  // stands for aside, which the leaf lemmas below take up.

  /** The measure of the search as one number: a noun may turn into a
      verb once, a bare word may become affixed once, levels only go down,
      and each rover is resolved once per level. */
  function Height(s: WordState): nat {
    (if s.isNoun then 72 else 0) + (if s.Bare() then 36 else 0) + 3 * s.level + s.UnresolvedRovers()
  }

  lemma HeightBelow(a: WordState, b: WordState)
    requires a.Valid() && RankBelow(a, b)
    ensures Height(a) < Height(b)
  {
  }

  lemma StepReady(s: WordState)
    requires Ready(s) && s.level > 0
    ensures |s.noun| == NounLevels && |s.verb| == VerbLevels
    ensures var step := BranchStep(s);
      Ready(step.parent) && Height(step.parent) < Height(s) &&
      step.parent.unparsed == s.unparsed && step.parent.Bare() == s.Bare() &&
      (step.branch.Some? ==> Ready(step.branch.value) && Height(step.branch.value) < Height(s))
  {
    BranchStepKeeps(s);
    var step := BranchStep(s);
    HeightBelow(step.parent, s);
    if step.branch.Some? {
      HeightBelow(step.branch.value, s);
    }
  }

  lemma InitialReady(candidate: string, isNoun: bool)
    ensures Ready(Initial(candidate, isNoun))
  {
    InitialKeeps(candidate, isNoun);
  }

  lemma PrefixReady(s: WordState, i: nat)
    requires Ready(s) && !s.isNoun && s.prefix == 0
    requires 1 <= i < |VerbPrefixes| && StartStrips(s.unparsed, VerbPrefixes[i])
    ensures Ready(PrefixStripped(s, i))
  {
    PrefixStrippedKeeps(s, i);
  }

  lemma OyReady(s: WordState)
    requires Ready(s) && CanStripApostropheOy(s)
    ensures |s.noun| == NounLevels
    ensures Ready(ApostropheOyStripped(s)) && Height(ApostropheOyStripped(s)) < Height(s)
  {
    ApostropheOyStrippedKeeps(s);
    HeightBelow(ApostropheOyStripped(s), s);
  }

  lemma LeafReady(s: WordState)
    requires Ready(s) && s.level == 0
    ensures var leaf := NumbersDetected(s);
      leaf.Valid() && leaf.level == 0 && Height(leaf) == Height(s) && leaf.isNoun == s.isNoun &&
      leaf.unparsed == s.unparsed && leaf.Bare() == s.Bare()
  {
  }

  lemma VerbRootReady(leaf: WordState)
    requires leaf.Valid() && HasVerbRoot(leaf)
    ensures Ready(VerbRoot(leaf)) && Height(VerbRoot(leaf)) < Height(leaf)
  {
    VerbRootKeeps(leaf);
    HeightBelow(VerbRoot(leaf), leaf);
  }

  lemma AdjectivalReady(leaf: WordState, i: nat)
    requires leaf.Valid() && !leaf.isNoun && leaf.Bare()
    requires i == FirstEnding(leaf.unparsed, NounType5, false) && i != 0
    ensures EndsWith(leaf.unparsed, NounType5[i])
    ensures var adj := Adjectival(leaf, i);
      Ready(adj) && Height(adj) < Height(leaf) && |adj.verb| == VerbLevels &&
      (HasAdjectivalRover(adj) ==>
         Ready(AdjectivalRoverStripped(adj)) && Height(AdjectivalRoverStripped(adj)) < Height(leaf))
  {
    AdjectivalKeeps(leaf, i);
    var adj := Adjectival(leaf, i);
    HeightBelow(adj, leaf);
    if HasAdjectivalRover(adj) {
      AdjectivalRoverStrippedKeeps(adj);
      HeightBelow(AdjectivalRoverStripped(adj), leaf);
    }
  }

  // ---------------------------------------------------------------------
  // The search. Each function is one part of stripSuffix; the last
  // component of each measure orders the parts that recurse on the same
  // candidate.

  /** Everything stripSuffix adds to the list, starting from `s`. */
  ghost function Search(s: WordState): seq<WordState>
    requires Ready(s)
    decreases Height(s), 2
  {
    if s.level == 0 then Finished(s) else LevelSearch(s)
  }

  /** A candidate with no level left is added, after number detection, and
      the search goes on with its other reading, if any. */
  ghost function Finished(s: WordState): seq<WordState>
    requires Ready(s) && s.level == 0
    decreases Height(s), 1
  {
    LeafReady(s);
    [NumbersDetected(s)] + Continued(NumbersDetected(s))
  }

  /** After a finished candidate: a noun ending in {-wI'} or {-ghach} is
      searched again as a verb; a bare verb ending in a type 5 noun suffix
      as an adjectival verb, after the branch without its trailing rover if
      it ends in {-be'}, {-qu'} or {-Ha'}. */
  ghost function Continued(leaf: WordState): seq<WordState>
    requires leaf.Valid() && leaf.level == 0
    decreases Height(leaf), 0
  {
    if leaf.isNoun then
      if HasVerbRoot(leaf) then VerbRootReady(leaf); Search(VerbRoot(leaf)) else []
    else if !leaf.Bare() then []
    else
      var i := FirstEnding(leaf.unparsed, NounType5, false);
      if i == 0 then []
      else
        AdjectivalReady(leaf, i);
        var adjective := Adjectival(leaf, i);
        (if HasAdjectivalRover(adjective) then Search(AdjectivalRoverStripped(adjective)) else [])
        + Search(adjective)
  }

  /** A candidate with a level left: the {-'oy} branch, then the branch of
      this level, then the candidate itself one level further in. */
  ghost function LevelSearch(s: WordState): seq<WordState>
    requires Ready(s) && s.level > 0
    decreases Height(s), 1
  {
    StepReady(s);
    var step := BranchStep(s);
    OyBranch(s)
    + (if step.branch.Some? then Search(step.branch.value) else [])
    + Search(step.parent)
  }

  /** What the branch of a level and the candidate a level further in add. */
  ghost function StepSearch(s: WordState): seq<WordState>
    requires Ready(s) && s.level > 0
    decreases Height(s), 0
  {
    StepReady(s);
    var step := BranchStep(s);
    (if step.branch.Some? then Search(step.branch.value) else []) + Search(step.parent)
  }

  lemma LevelSearchParts(s: WordState)
    requires Ready(s) && s.level > 0
    ensures LevelSearch(s) == OyBranch(s) + StepSearch(s)
  {
  }

  /** The {-'oy} branch of a noun at its last level, if it has one. */
  ghost function OyBranch(s: WordState): seq<WordState>
    requires Ready(s)
    decreases Height(s), 0
  {
    if CanStripApostropheOy(s) then OyReady(s); Search(ApostropheOyStripped(s)) else []
  }

  /** Everything parseComplexWord adds for `candidate` read as a noun or as
      a verb: for a verb, first the search without its first prefix. */
  ghost function Parse(candidate: string, isNoun: bool): seq<WordState> {
    InitialKeeps(candidate, isNoun);
    var s := Initial(candidate, isNoun);
    var i := FirstStart(candidate, VerbPrefixes);
    (if !isNoun && i != 0 then PrefixStrippedKeeps(s, i); Search(PrefixStripped(s, i)) else [])
    + Search(s)
  }

  // ---------------------------------------------------------------------
  // What the search finds.

  /** A finished candidate for `word`: well formed, no level left, standing
      for `word`, and, for a noun, carrying the number fields detected on
      its stem. */
  ghost predicate IsLeaf(s: WordState, word: string) {
    var leaf := s.Valid() && s.level == 0 && s.Surface() == word &&
      (s.isNoun ==>
         NumberFields(s.numberDigit, s.numberModifier, s.numberSuffix, s.numberLike)
         == DetectNumber(s.unparsed, s.Bare(), NoNumber));
    leaf
  }

  /** A finished candidate is number-like only when its stem is a number
      word: a root that is a digit, or {pagh}, {Hoch} or {'ar} carrying a
      number suffix, followed by the modifier and the suffix recorded. */
  lemma NumberLikeLeaf(x: WordState, word: string)
    requires IsLeaf(x, word) && x.IsNumberLike()
    ensures x.numberModifier != 0 || x.numberSuffix != ""
    ensures x.numberModifier < |NumberModifiers|
    ensures var root := NumberRootOf(x.unparsed, x.Bare());
      x.unparsed == root + NumberModifiers[x.numberModifier] + x.numberSuffix &&
      ((x.numberDigit != 0 && root == NumberDigits[x.numberDigit]) ||
       (x.numberSuffix != "" && (root == "pagh" || root == "Hoch" || root == "'ar")))
  {
    assert NumberFields(x.numberDigit, x.numberModifier, x.numberSuffix, x.numberLike)
           == DetectNumber(x.unparsed, x.Bare(), NoNumber);
    NumberLikeIsNumberWord(x.unparsed, x.Bare());
  }

    ghost predicate AllLeaves(xs: seq<WordState>, word: string) {
    forall x <- xs :: IsLeaf(x, word)
  }

  /** One of `xs` has stem `stem` and, when `bare` holds, no affix. */
  ghost predicate Holds(xs: seq<WordState>, stem: string, bare: bool) {
    exists x <- xs :: x.unparsed == stem && (bare ==> x.Bare())
  }

  lemma AllLeavesJoin(a: seq<WordState>, b: seq<WordState>, word: string)
    requires AllLeaves(a, word) && AllLeaves(b, word)
    ensures AllLeaves(a + b, word)
  {
  }

  /** The state added for a finished candidate is a leaf for the word the
      candidate stands for. */
  lemma LeafIsLeaf(s: WordState)
    requires Ready(s) && s.level == 0
    ensures IsLeaf(NumbersDetected(s), s.Surface())
  {
    NumbersDetectedKeeps(s);
  }

  /** Number detection leaves the word a candidate stands for alone. */
  lemma LeafSurface(s: WordState)
    requires Ready(s) && s.level == 0
    ensures NumbersDetected(s).Surface() == s.Surface()
  {
    NumbersDetectedKeeps(s);
  }

  /** Every state the search adds is a leaf for the word the starting
      candidate stands for. */
  lemma {:induction false} SearchLeaves(s: WordState)
    requires Ready(s)
    ensures AllLeaves(Search(s), s.Surface())
    decreases Height(s), 3
  {
    if s.level == 0 {
      FinishedLeaves(s);
    } else {
      LevelLeaves(s);
    }
  }

  lemma {:induction false} FinishedLeaves(s: WordState)
    requires Ready(s) && s.level == 0
    ensures AllLeaves(Finished(s), s.Surface())
    decreases Height(s), 2
  {
    var leaf := NumbersDetected(s);
    LeafReady(s);
    LeafIsLeaf(s);
    LeafSurface(s);
    ContinuedLeaves(leaf);
  }

  lemma {:induction false} ContinuedLeaves(leaf: WordState)
    requires leaf.Valid() && leaf.level == 0
    ensures AllLeaves(Continued(leaf), leaf.Surface())
    decreases Height(leaf), 1
  {
    if leaf.isNoun {
      if HasVerbRoot(leaf) {
        VerbRootKeeps(leaf);
        SearchLeaves(VerbRoot(leaf));
      }
    } else if leaf.Bare() {
      var i := FirstEnding(leaf.unparsed, NounType5, false);
      if i != 0 {
        AdjectivalLeaves(leaf, i);
      }
    }
  }

  /** The adjectival reading of a bare verb, and its branch without a
      trailing rover, add only leaves for the verb's word. */
  lemma {:induction false} AdjectivalLeaves(leaf: WordState, i: nat)
    requires leaf.Valid() && leaf.level == 0 && !leaf.isNoun && leaf.Bare()
    requires 1 <= i < |NounType5| && EndsWith(leaf.unparsed, NounType5[i])
    ensures var adjective := Adjectival(leaf, i);
      AllLeaves((if HasAdjectivalRover(adjective) then Search(AdjectivalRoverStripped(adjective)) else [])
                + Search(adjective), leaf.Surface())
    decreases Height(leaf), 0
  {
    AdjectivalReady(leaf, i);
    AdjectivalKeeps(leaf, i);
    var adjective := Adjectival(leaf, i);
    SearchLeaves(adjective);
    if HasAdjectivalRover(adjective) {
      AdjectivalRoverStrippedKeeps(adjective);
      SearchLeaves(AdjectivalRoverStripped(adjective));
      AllLeavesJoin(Search(AdjectivalRoverStripped(adjective)), Search(adjective), leaf.Surface());
    }
  }

  lemma {:induction false} LevelLeaves(s: WordState)
    requires Ready(s) && s.level > 0
    ensures AllLeaves(LevelSearch(s), s.Surface())
    decreases Height(s), 2
  {
    StepReady(s);
    BranchStepKeeps(s);
    var step := BranchStep(s);
    OyLeaves(s);
    var branch := if step.branch.Some? then Search(step.branch.value) else [];
    if step.branch.Some? {
      SearchLeaves(step.branch.value);
    }
    SearchLeaves(step.parent);
    AllLeavesJoin(OyBranch(s), branch, s.Surface());
    AllLeavesJoin(OyBranch(s) + branch, Search(step.parent), s.Surface());
  }

  lemma {:induction false} OyLeaves(s: WordState)
    requires Ready(s)
    ensures AllLeaves(OyBranch(s), s.Surface())
    decreases Height(s), 0
  {
    if CanStripApostropheOy(s) {
      OyReady(s);
      ApostropheOyStrippedKeeps(s);
      SearchLeaves(ApostropheOyStripped(s));
    }
  }

  /** The candidate itself, with the affixes it already carries, is among
      the states the search adds: the search never loses its stem. */
  lemma {:induction false} SearchHoldsStem(s: WordState)
    requires Ready(s)
    ensures Holds(Search(s), s.unparsed, s.Bare())
    decreases Height(s)
  {
    if s.level == 0 {
      LeafReady(s);
      var leaf := NumbersDetected(s);
      assert Finished(s)[0] == leaf;
    } else {
      StepReady(s);
      var step := BranchStep(s);
      SearchHoldsStem(step.parent);
      var x :| x in Search(step.parent) && x.unparsed == step.parent.unparsed &&
               (step.parent.Bare() ==> x.Bare());
      assert x in LevelSearch(s);
    }
  }

  /** parseComplexWord adds only candidates that reassemble `candidate`,
      each with no level left. */
  lemma ParseLeaves(candidate: string, isNoun: bool)
    ensures AllLeaves(Parse(candidate, isNoun), candidate)
  {
    InitialKeeps(candidate, isNoun);
    var s := Initial(candidate, isNoun);
    var i := FirstStart(candidate, VerbPrefixes);
    if !isNoun && i != 0 {
      PrefixStrippedKeeps(s, i);
      SearchLeaves(PrefixStripped(s, i));
    }
    SearchLeaves(s);
  }

  /** The word itself, with no affix, is among the candidates
      parseComplexWord adds. */
  lemma ParseHoldsWord(candidate: string, isNoun: bool)
    ensures Holds(Parse(candidate, isNoun), candidate, true)
  {
    InitialKeeps(candidate, isNoun);
    var s := Initial(candidate, isNoun);
    SearchHoldsStem(s);
    var x :| x in Search(s) && x.unparsed == candidate && x.Bare();
    assert x in Parse(candidate, isNoun);
  }
}
