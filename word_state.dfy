/** The analysis state of one complex-word candidate as a value: the fields of
    a `ComplexWord` object at one moment. The in-place analyzer (module
    ComplexWords) is specified by the transitions defined here, and what the
    analysis promises (every candidate reassembles the input word, every
    branch is shorter, the search terminates) is proved here, on values. */
module WordStates {
  import opened Strings
  import opened AffixTables

  datatype WordState = WordState(
    unparsed: string,               // the stem not yet analysed
    isNoun: bool,                   // noun candidate, or verb candidate
    isVerbWithType5NounSuffix: bool,// adjectival verb carrying a type 5 noun suffix
    homophone: int,                 // -1 when no homophone number is set
    level: nat,                     // suffix levels still to be examined
    prefix: nat,                    // index into VerbPrefixes
    noun: seq<nat>,                 // one index per noun suffix table
    verb: seq<nat>,                 // one index per verb suffix table
    negation: int,                  // level of {-be'}, or RoverNotYetFound / IgnoreThisRover
    emphatic: int,                  // level of {-qu'}, likewise
    negationFirst: bool,            // {-be'} precedes {-qu'} when both sit at one level
    numberDigit: nat,
    numberModifier: nat,
    numberSuffix: string,
    numberLike: bool)
  {
    /** Indices are in range, and the levels still open carry nothing yet:
        the analysis works from the end of the word inwards, so whatever was
        stripped sits outside the remaining levels. A noun candidate has no
        prefix, verb suffix or rover. */
    ghost predicate Valid() {
      prefix < |VerbPrefixes| &&
      ChoicesInRange(noun, NounSuffixTables) && ChoicesInRange(verb, VerbSuffixTables) &&
      IgnoreThisRover <= negation < VerbLevels && IgnoreThisRover <= emphatic < VerbLevels &&
      numberDigit < |NumberDigits| && numberModifier < |NumberModifiers| &&
      level <= (if isNoun then NounLevels else VerbLevels) &&
      (isNoun ==>
         prefix == 0 && negation < 0 && emphatic < 0 &&
         (forall j :: 0 <= j < VerbLevels ==> verb[j] == 0) &&
         (forall i :: 0 <= i < level ==> noun[i] == 0)) &&
      (!isNoun ==>
         (forall j :: 0 <= j < level ==> verb[j] == 0) &&
         (negation >= 0 ==> negation >= level - 1) &&
         (emphatic >= 0 ==> emphatic >= level - 1))
    }

    /** The word this candidate stands for (nothing, for indices out of
        range). */
    ghost function Surface(): string {
      if prefix < |VerbPrefixes| &&
         ChoicesInRange(verb, VerbSuffixTables) && ChoicesInRange(noun, NounSuffixTables)
      then Reassemble(prefix, unparsed, verb, negation, emphatic, negationFirst, noun)
      else ""
    }

    /** No prefix, no suffix and no rover found: the candidate is the word
        itself. */
    predicate Bare() {
      prefix == 0 && negation < 0 && emphatic < 0 &&
      (forall i :: 0 <= i < |noun| ==> noun[i] == 0) &&
      (forall j :: 0 <= j < |verb| ==> verb[j] == 0)
    }

    predicate NumberUnset() {
      numberDigit == 0 && numberModifier == 0 && numberSuffix == "" && !numberLike
    }

    /** Rovers that may still be stripped. */
    function UnresolvedRovers(): nat {
      (if negation == RoverNotYetFound then 1 else 0) + (if emphatic == RoverNotYetFound then 1 else 0)
    }

    /** The lookup key of a candidate: adjectival verbs are marked as needing a
        type 5 noun suffix host; in lenient mode a bare word is looked up
        without a part of speech; otherwise the part of speech and the
        homophone number, if any, follow the stem. */
    function Filter(isLenient: bool): (key: string)
      ensures StartsWith(key, unparsed)
      ensures isVerbWithType5NounSuffix ==> key == unparsed + ":v:n5"
      ensures !isVerbWithType5NounSuffix && isLenient && Bare() ==> key == unparsed
      ensures !isVerbWithType5NounSuffix && !(isLenient && Bare()) ==>
        key[|unparsed|..] == (if isNoun then ":n" else ":v")
          + (if homophone != -1 then ":" + IntToString(homophone) else "")
    {
      if isVerbWithType5NounSuffix then unparsed + ":v:n5"
      else if isLenient && Bare() then unparsed
      else unparsed + ":" + (if isNoun then "n" else "v")
           + (if homophone != -1 then ":" + IntToString(homophone) else "")
    }

    /** The entry name of the verb prefix, with its hyphen. */
    function GetVerbPrefix(): (name: string)
      requires prefix < |VerbPrefixes|
      ensures prefix == 0 <==> name == ""
      ensures prefix != 0 ==> name == VerbPrefixes[prefix] + "-"
    {
      VerbPrefixes[prefix] + (if prefix == 0 then "" else "-")
    }

    /** The root of a number word: the digit found, else {pagh}, {Hoch} or
        {'ar} at the start of the stem, else "". */
    function GetNumberRoot(): (root: string)
      requires numberDigit < |NumberDigits|
      ensures numberDigit != 0 ==> root == NumberDigits[numberDigit]
      ensures numberDigit == 0 ==>
        (root == "pagh" <==> StartsWith(unparsed, "pagh")) &&
        (root == "Hoch" <==> StartsWith(unparsed, "Hoch")) &&
        (root == "'ar" <==> StartsWith(unparsed, "'ar")) &&
        (root == "" <==> !StartsWith(unparsed, "pagh") && !StartsWith(unparsed, "Hoch")
                         && !StartsWith(unparsed, "'ar"))
    {
      if numberDigit != 0 then NumberDigits[numberDigit]
      else if StartsWith(unparsed, "pagh") then "pagh"
      else if StartsWith(unparsed, "Hoch") then "Hoch"
      else if StartsWith(unparsed, "'ar") then "'ar"
      else ""
    }

    /** The part of speech of that root: a number for digits and {pagh}, a
        noun for {Hoch}, a question word for {'ar}. */
    function GetNumberRootAnnotation(): (annotation: string)
      requires numberDigit < |NumberDigits|
      ensures annotation == "n:num" <==> numberDigit != 0 || StartsWith(unparsed, "pagh")
      ensures annotation == "n" <==> numberDigit == 0 && StartsWith(unparsed, "Hoch")
      ensures annotation == "ques" <==> numberDigit == 0 && StartsWith(unparsed, "'ar")
      ensures annotation == ""
        <==> numberDigit == 0 && !StartsWith(unparsed, "pagh") && !StartsWith(unparsed, "Hoch")
             && !StartsWith(unparsed, "'ar")
    {
      if numberDigit != 0 then "n:num"
      else if StartsWith(unparsed, "pagh") then "n:num"
      else if StartsWith(unparsed, "Hoch") then "n"
      else if StartsWith(unparsed, "'ar") then "ques"
      else ""
    }

    /** A noun candidate marked as a number word. */
    predicate IsNumberLike() {
      isNoun && numberLike
    }

    /** The display list of getSuffixesString: the verb levels innermost
        first, each with its suffix and then its rovers, then the noun
        suffixes; every item is preceded by " + ". */
    function SuffixesText(): string
      requires ChoicesInRange(noun, NounSuffixTables) && ChoicesInRange(verb, VerbSuffixTables)
    {
      VerbSuffixesText(VerbLevels) + NounSuffixesText(NounLevels)
    }

    /** The items of the verb levels below `n`. */
    function VerbSuffixesText(n: nat): string
      requires ChoicesInRange(verb, VerbSuffixTables) && n <= VerbLevels
    {
      if n == 0 then "" else VerbSuffixesText(n - 1) + VerbSuffixItem(n - 1) + RoverItem(n - 1)
    }

    function VerbSuffixItem(i: nat): string
      requires ChoicesInRange(verb, VerbSuffixTables) && i < VerbLevels
    {
      if verb[i] != 0 then " + -" + VerbSuffixTables[i][verb[i]] else ""
    }

    /** The rovers of level `i` as getSuffixesString writes them. When both
        sit at one level, the second is written without its hyphen. */
    function RoverItem(i: nat): string {
      if negation == i && emphatic == i then
        (if negationFirst then " + -be' + qu'" else " + -qu' + be'")
      else if negation == i then " + -be'"
      else if emphatic == i then " + -qu'"
      else ""
    }

    /** The items of the noun types below `n`. */
    function NounSuffixesText(n: nat): string
      requires ChoicesInRange(noun, NounSuffixTables) && n <= NounLevels
    {
      if n == 0 then "" else NounSuffixesText(n - 1) + NounSuffixItem(n - 1)
    }

    function NounSuffixItem(j: nat): string
      requires ChoicesInRange(noun, NounSuffixTables) && j < NounLevels
    {
      if noun[j] != 0 then " + -" + NounSuffixTables[j][noun[j]] else ""
    }

    /** The display list with every rover under its own name, hyphen
        included, as getRovers gives them: the text getSuffixesString
        evidently means to write. */
    function ListedSuffixesText(): string
      requires ChoicesInRange(noun, NounSuffixTables) && ChoicesInRange(verb, VerbSuffixTables)
    {
      ListedVerbSuffixesText(VerbLevels) + NounSuffixesText(NounLevels)
    }

    function ListedVerbSuffixesText(n: nat): string
      requires ChoicesInRange(verb, VerbSuffixTables) && n <= VerbLevels
    {
      if n == 0 then "" else ListedVerbSuffixesText(n - 1) + VerbSuffixItem(n - 1) + ListedRoverItem(n - 1)
    }

    function ListedRoverItem(i: nat): string {
      if negation == i && emphatic == i then
        (if negationFirst then " + -be' + -qu'" else " + -qu' + -be'")
      else RoverItem(i)
    }

    /** The names of the suffixes and rovers found, in display order: per
        verb level the suffix chosen there and then the rovers there, then
        per noun type the suffix chosen there. */
    function SuffixNames(): seq<string>
      requires ChoicesInRange(noun, NounSuffixTables) && ChoicesInRange(verb, VerbSuffixTables)
    {
      VerbNames(VerbLevels) + NounNames(NounLevels)
    }

    function VerbNames(n: nat): seq<string>
      requires ChoicesInRange(verb, VerbSuffixTables) && n <= VerbLevels
    {
      if n == 0 then []
      else VerbNames(n - 1)
           + (if verb[n - 1] != 0 then ["-" + VerbSuffixTables[n - 1][verb[n - 1]]] else [])
           + RoversAt(negation, emphatic, negationFirst, n - 1)
    }

    function NounNames(n: nat): seq<string>
      requires ChoicesInRange(noun, NounSuffixTables) && n <= NounLevels
    {
      if n == 0 then []
      else NounNames(n - 1) + (if noun[n - 1] != 0 then ["-" + NounSuffixTables[n - 1][noun[n - 1]]] else [])
    }
  }

  /** The state of a freshly constructed candidate. */
  function Initial(candidate: string, isNoun: bool): WordState {
    WordState(candidate, isNoun, false, -1, if isNoun then NounLevels else VerbLevels,
              0, seq(NounLevels, _ => 0), seq(VerbLevels, _ => 0),
              RoverNotYetFound, RoverNotYetFound, false, 0, 0, "", false)
  }

  /** A fresh candidate is well formed, records nothing and stands for the
      word itself. */
  lemma InitialKeeps(candidate: string, isNoun: bool)
    ensures var s := Initial(candidate, isNoun);
      s.Valid() && s.Bare() && s.NumberUnset() && s.Surface() == candidate &&
      s.unparsed == candidate && s.isNoun == isNoun &&
      s.level == (if isNoun then NounLevels else VerbLevels) && s.UnresolvedRovers() == 2
  {
    BareSurface(Initial(candidate, isNoun));
  }

  /** The part of a candidate's word before its noun suffixes. */
  ghost function CoreOf(s: WordState): string
    requires s.Valid()
  {
    Core(s.prefix, s.unparsed, s.verb, s.negation, s.emphatic, s.negationFirst)
  }

  /** A candidate with no prefix, verb suffix or rover: its core is its stem. */
  lemma NoVerbPartCore(s: WordState)
    requires s.Valid() && s.prefix == 0 && s.negation < 0 && s.emphatic < 0
    requires forall j :: 0 <= j < VerbLevels ==> s.verb[j] == 0
    ensures CoreOf(s) == s.unparsed
    ensures s.Surface() == s.unparsed + NounText(s.unparsed, s.noun)
  {
    VerbTailSkipsEmpty(s.verb, s.negation, s.emphatic, s.negationFirst, 0, VerbLevels);
    assert VerbPrefixes[0] == "";
  }

  /** A bare candidate stands for its own stem. */
  lemma BareSurface(s: WordState)
    requires s.Valid() && s.Bare()
    ensures s.Surface() == s.unparsed
  {
    NoVerbPartCore(s);
    NounTailSkipsEmpty(s.noun, 1, NounLevels);
    assert NounText(s.unparsed, s.noun) == "";
  }

  // ---------------------------------------------------------------------
  // Affix choice: the first table entry, in table order, that applies.

  /** Stripping `suffix` leaves a non-empty stem, and "oy" is never taken
      from a stem whose remainder ends in a vowel. */
  predicate SuffixStrips(stem: string, suffix: string) {
    EndsWith(stem, suffix) && |suffix| < |stem| &&
    (suffix != "oy" || !EndsInVowel(DropSuffix(stem, suffix)))
  }

  /** Removing `prefix` from the front leaves a non-empty stem. */
  predicate StartStrips(stem: string, prefix: string) {
    StartsWith(stem, prefix) && |prefix| < |stem|
  }

  /** The first entry of `table` (index 1 onwards) whose removal from the
      front of `stem` leaves a non-empty stem, or 0. */
  function FirstStart(stem: string, table: seq<string>): (i: nat)
    ensures i == 0 || 1 <= i < |table|
    ensures i != 0 ==> StartStrips(stem, table[i])
    ensures forall j :: 1 <= j < |table| && (i == 0 || j < i) ==> !StartStrips(stem, table[j])
  {
    FirstStartFrom(stem, table, 1)
  }

  function FirstStartFrom(stem: string, table: seq<string>, k: nat): (i: nat)
    requires 1 <= k
    ensures i == 0 || k <= i < |table|
    ensures i != 0 ==> StartStrips(stem, table[i])
    ensures forall j :: k <= j < |table| && (i == 0 || j < i) ==> !StartStrips(stem, table[j])
    decreases |table| - k
  {
    if k >= |table| then 0
    else if StartStrips(stem, table[k]) then k
    else FirstStartFrom(stem, table, k + 1)
  }

  /** The first entry of `table` (index 1 onwards) that `stem` ends with, or
      0; with `strict`, the first that strips in the sense of SuffixStrips. */
  function FirstEnding(stem: string, table: seq<string>, strict: bool): (i: nat)
    ensures i == 0 || 1 <= i < |table|
    ensures i != 0 ==> EndsWith(stem, table[i]) && (strict ==> SuffixStrips(stem, table[i]))
    ensures forall j :: 1 <= j < |table| && (i == 0 || j < i) ==>
      !(EndsWith(stem, table[j]) && (strict ==> SuffixStrips(stem, table[j])))
  {
    FirstEndingFrom(stem, table, strict, 1)
  }

  function FirstEndingFrom(stem: string, table: seq<string>, strict: bool, k: nat): (i: nat)
    requires 1 <= k
    ensures i == 0 || k <= i < |table|
    ensures i != 0 ==> EndsWith(stem, table[i]) && (strict ==> SuffixStrips(stem, table[i]))
    ensures forall j :: k <= j < |table| && (i == 0 || j < i) ==>
      !(EndsWith(stem, table[j]) && (strict ==> SuffixStrips(stem, table[j])))
    decreases |table| - k
  {
    if k >= |table| then 0
    else if EndsWith(stem, table[k]) && (strict ==> SuffixStrips(stem, table[k])) then k
    else FirstEndingFrom(stem, table, strict, k + 1)
  }

  /** The suffix table examined at `level` (levels count from 1). */
  function TableAt(isNoun: bool, level: nat): seq<string>
    requires 1 <= level <= (if isNoun then NounLevels else VerbLevels)
  {
    if isNoun then NounSuffixTables[level - 1] else VerbSuffixTables[level - 1]
  }

  // ---------------------------------------------------------------------
  // The transitions of the analysis. Each returns the state of a new branch
  // (or of the parent after it), and each is proved to keep the invariant,
  // keep the word the candidate stands for, and make progress.

  /** The well-founded measure of the search: a noun may turn into a verb
      once, a bare word may become affixed once, levels only go down, and
      each rover is resolved once per level. */
  function Rank(s: WordState): (nat, nat, nat, nat) {
    (if s.isNoun then 1 else 0, if s.Bare() then 1 else 0, s.level, s.UnresolvedRovers())
  }

  predicate RankBelow(a: WordState, b: WordState) {
    var (a0, a1, a2, a3) := Rank(a);
    var (b0, b1, b2, b3) := Rank(b);
    a0 < b0 || (a0 == b0 && (a1 < b1 || (a1 == b1 && (a2 < b2 || (a2 == b2 && a3 < b3)))))
  }

  /** `b` records exactly the affixes `a` records, on the same stem. */
  predicate SameFindings(a: WordState, b: WordState) {
    b.unparsed == a.unparsed && b.isNoun == a.isNoun && b.prefix == a.prefix &&
    b.noun == a.noun && b.verb == a.verb && (b.Bare() <==> a.Bare()) &&
    b.NumberUnset() == a.NumberUnset()
  }

  /** The candidate's word is its core followed by its noun suffixes. */
  lemma SurfaceFromCore(s: WordState, r: WordState)
    requires s.Valid() && r.Valid() && CoreOf(r) == CoreOf(s) && r.noun == s.noun
    ensures r.Surface() == s.Surface()
  {
  }

  // Each transition below is a plain record update; the lemma after it
  // proves that it keeps the invariant, keeps the word and makes progress.

  /** The branch with the verb prefix at index `i` removed. */
  function PrefixStripped(s: WordState, i: nat): WordState
    requires i < |VerbPrefixes| && StartsWith(s.unparsed, VerbPrefixes[i])
  {
    s.(unparsed := s.unparsed[|VerbPrefixes[i]|..], prefix := i)
  }

  lemma PrefixStrippedKeeps(s: WordState, i: nat)
    requires s.Valid() && !s.isNoun && s.prefix == 0
    requires 1 <= i < |VerbPrefixes| && StartStrips(s.unparsed, VerbPrefixes[i])
    ensures var r := PrefixStripped(s, i);
      r.Valid() && r.Surface() == s.Surface() && 0 < |r.unparsed| < |s.unparsed| &&
      r.prefix == i && !r.Bare() && !r.isNoun && r.NumberUnset() == s.NumberUnset() &&
      (s.Bare() ==> RankBelow(r, s))
  {
    TablesShape();
    var r := PrefixStripped(s, i);
    assert r.Valid();
    PrefixStepSurface(s, r, VerbPrefixes[i]);
  }

  lemma PrefixStepSurface(s: WordState, r: WordState, p: string)
    requires s.Valid() && r.Valid() && s.prefix == 0 && VerbPrefixes[r.prefix] == p
    requires r.verb == s.verb && r.noun == s.noun && r.negation == s.negation
    requires r.emphatic == s.emphatic && r.negationFirst == s.negationFirst
    requires StartsWith(s.unparsed, p) && r.unparsed == s.unparsed[|p|..]
    ensures CoreOf(r) == CoreOf(s) && r.Surface() == s.Surface()
  {
    assert s.unparsed == p + r.unparsed;
    assert VerbPrefixes[0] == "";
    EmptyLeft(VerbPrefixes[0], p + r.unparsed);
  }

  predicate CanStripNegation(s: WordState) {
    s.negation == RoverNotYetFound && EndsWith(s.unparsed, Negation) && s.unparsed != Negation
  }

  predicate CanStripEmphatic(s: WordState) {
    s.emphatic == RoverNotYetFound && EndsWith(s.unparsed, Emphatic) && s.unparsed != Emphatic
  }

  /** The branch with {-be'} removed: the rover is recorded after the level
      about to be examined, and if {-qu'} already sits there, {-be'} comes
      first in the word. */
  function NegationStripped(s: WordState): WordState
    requires s.level >= 1 && CanStripNegation(s)
  {
    s.(unparsed := DropSuffix(s.unparsed, Negation), negation := s.level - 1,
       negationFirst := if s.emphatic == s.level - 1 then true else s.negationFirst)
  }

  lemma NegationStrippedKeeps(s: WordState)
    requires s.Valid() && !s.isNoun && s.level >= 1 && CanStripNegation(s)
    ensures var r := NegationStripped(s);
      r.Valid() && r.Surface() == s.Surface() && 0 < |r.unparsed| == |s.unparsed| - 3 &&
      RankBelow(r, s) && !r.isNoun && r.NumberUnset() == s.NumberUnset()
  {
    var r := NegationStripped(s);
    var L := s.level;
    assert r.Valid() && 0 < |r.unparsed| == |s.unparsed| - 3 && RankBelow(r, s);
    assert RoverText(r.negation, r.emphatic, r.negationFirst, L - 1)
        == Negation + RoverText(s.negation, s.emphatic, s.negationFirst, L - 1);
    forall k | L <= k < VerbLevels
      ensures RoverText(r.negation, r.emphatic, r.negationFirst, k)
           == RoverText(s.negation, s.emphatic, s.negationFirst, k)
    {
    }
    RoverStepSurface(s, r, Negation);
  }

  /** The branch with {-qu'} removed; if {-be'} already sits at that level,
      {-qu'} comes first in the word. */
  function EmphaticStripped(s: WordState): WordState
    requires s.level >= 1 && CanStripEmphatic(s)
  {
    s.(unparsed := DropSuffix(s.unparsed, Emphatic), emphatic := s.level - 1,
       negationFirst := if s.negation == s.level - 1 then false else s.negationFirst)
  }

  lemma EmphaticStrippedKeeps(s: WordState)
    requires s.Valid() && !s.isNoun && s.level >= 1 && CanStripEmphatic(s)
    ensures var r := EmphaticStripped(s);
      r.Valid() && r.Surface() == s.Surface() && 0 < |r.unparsed| == |s.unparsed| - 3 &&
      RankBelow(r, s) && !r.isNoun && r.NumberUnset() == s.NumberUnset()
  {
    var r := EmphaticStripped(s);
    var L := s.level;
    assert r.Valid() && 0 < |r.unparsed| == |s.unparsed| - 3 && RankBelow(r, s);
    assert RoverText(r.negation, r.emphatic, r.negationFirst, L - 1)
        == Emphatic + RoverText(s.negation, s.emphatic, s.negationFirst, L - 1);
    forall k | L <= k < VerbLevels
      ensures RoverText(r.negation, r.emphatic, r.negationFirst, k)
           == RoverText(s.negation, s.emphatic, s.negationFirst, k)
    {
    }
    RoverStepSurface(s, r, Emphatic);
  }

  /** Recording a rover found at the end of the stem, at the level just
      outside the open ones, keeps the word. */
  lemma RoverStepSurface(s: WordState, r: WordState, rover: string)
    requires s.Valid() && r.Valid() && !s.isNoun && s.level >= 1
    requires r.prefix == s.prefix && r.verb == s.verb && r.noun == s.noun
    requires EndsWith(s.unparsed, rover) && r.unparsed == DropSuffix(s.unparsed, rover)
    requires r.negation < 0 || r.negation >= s.level - 1
    requires r.emphatic < 0 || r.emphatic >= s.level - 1
    requires forall k :: s.level <= k < VerbLevels ==>
      RoverText(r.negation, r.emphatic, r.negationFirst, k) == RoverText(s.negation, s.emphatic, s.negationFirst, k)
    requires RoverText(r.negation, r.emphatic, r.negationFirst, s.level - 1)
          == rover + RoverText(s.negation, s.emphatic, s.negationFirst, s.level - 1)
    ensures r.Surface() == s.Surface()
  {
    var L := s.level;
    assert VerbSuffixTables[L - 1][0] == "";
    Assoc(rover, VerbSuffixTables[L - 1][s.verb[L - 1]], RoverText(s.negation, s.emphatic, s.negationFirst, L - 1));
    VerbTailInsert(s.verb, s.negation, s.emphatic, s.negationFirst,
                   r.verb, r.negation, r.emphatic, r.negationFirst, L, rover);
    CoreInsert(s, r, rover);
  }

  /** Text moved from the end of the stem to the front of the verb tail
      leaves the core unchanged. */
  lemma CoreInsert(s: WordState, r: WordState, moved: string)
    requires s.Valid() && r.Valid() && r.prefix == s.prefix && r.noun == s.noun
    requires EndsWith(s.unparsed, moved) && r.unparsed == DropSuffix(s.unparsed, moved)
    requires VerbTail(r.verb, r.negation, r.emphatic, r.negationFirst, 0)
          == moved + VerbTail(s.verb, s.negation, s.emphatic, s.negationFirst, 0)
    ensures CoreOf(r) == CoreOf(s) && r.Surface() == s.Surface()
  {
    var p := VerbPrefixes[s.prefix];
    var tail := VerbTail(s.verb, s.negation, s.emphatic, s.negationFirst, 0);
    MoveAcross(p, r.unparsed, moved, tail);
  }

  /** The table examined at the candidate's current level exists. */
  predicate HasTable(s: WordState) {
    1 <= s.level <= (if s.isNoun then NounLevels else VerbLevels) &&
    |s.noun| == NounLevels && |s.verb| == VerbLevels
  }

  /** The branch with the suffix at index `k` of the table at the current
      level removed; it continues at the next level inwards. */
  function SuffixStripped(s: WordState, k: nat): WordState
    requires HasTable(s) && k < |TableAt(s.isNoun, s.level)|
    requires EndsWith(s.unparsed, TableAt(s.isNoun, s.level)[k])
  {
    var stem := DropSuffix(s.unparsed, TableAt(s.isNoun, s.level)[k]);
    if s.isNoun then s.(unparsed := stem, level := s.level - 1, noun := s.noun[s.level - 1 := k])
    else s.(unparsed := stem, level := s.level - 1, verb := s.verb[s.level - 1 := k])
  }

  lemma SuffixStrippedKeeps(s: WordState, k: nat)
    requires s.Valid() && s.level >= 1
    requires 1 <= k < |TableAt(s.isNoun, s.level)| && SuffixStrips(s.unparsed, TableAt(s.isNoun, s.level)[k])
    ensures HasTable(s)
    ensures var r := SuffixStripped(s, k);
      r.Valid() && r.Surface() == s.Surface() &&
      0 < |r.unparsed| < |s.unparsed| && r.level == s.level - 1 && RankBelow(r, s) &&
      r.isNoun == s.isNoun && r.NumberUnset() == s.NumberUnset()
  {
    TablesShape();
    var L := s.level;
    var r := SuffixStripped(s, k);
    if s.isNoun {
      NounStepShape(s, r, L, k);
      if L == 1 {
        NounStepSurfaceFirst(s, r, k);
      } else {
        NounStepSurfaceLater(s, r, L, k);
      }
    } else {
      VerbStepShape(s, r, L, k);
      VerbStepSurface(s, r, L, k);
    }
  }

  lemma NounStepShape(s: WordState, r: WordState, L: nat, k: nat)
    requires s.Valid() && s.isNoun && 1 <= s.level == L && 1 <= k < |NounSuffixTables[L - 1]|
    requires SuffixStrips(s.unparsed, NounSuffixTables[L - 1][k])
    requires r == s.(unparsed := DropSuffix(s.unparsed, NounSuffixTables[L - 1][k]), level := L - 1,
                     noun := s.noun[L - 1 := k])
    ensures r.Valid() && RankBelow(r, s)
  {
  }

  /** A type 1 noun suffix: the oy rule makes it read back as stripped. */
  lemma NounStepSurfaceFirst(s: WordState, r: WordState, k: nat)
    requires s.Valid() && r.Valid() && s.isNoun && s.level == 1 && 1 <= k < |NounType1|
    requires SuffixStrips(s.unparsed, NounType1[k])
    requires r == s.(unparsed := DropSuffix(s.unparsed, NounType1[k]), level := 0, noun := s.noun[0 := k])
    ensures r.Surface() == s.Surface()
  {
    NoVerbPartCore(s);
    NoVerbPartCore(r);
    assert k != OyIndex || !EndsInVowel(r.unparsed);
    NounType1Move(r.unparsed, k, s.noun, r.noun, NounType1[k]);
  }

  /** A noun suffix of type 2 to 5, with the types inside it still empty. */
  lemma NounStepSurfaceLater(s: WordState, r: WordState, L: nat, k: nat)
    requires s.Valid() && r.Valid() && s.isNoun && 2 <= s.level == L && 1 <= k < |NounSuffixTables[L - 1]|
    requires EndsWith(s.unparsed, NounSuffixTables[L - 1][k])
    requires r == s.(unparsed := DropSuffix(s.unparsed, NounSuffixTables[L - 1][k]), level := L - 1,
                     noun := s.noun[L - 1 := k])
    ensures r.Surface() == s.Surface()
  {
    var suffix := NounSuffixTables[L - 1][k];
    NoVerbPartCore(s);
    NoVerbPartCore(r);
    NounTailFrame(s.noun, r.noun, L);
    var rest := NounTail(s.noun, L);
    NounTailSkipsEmpty(s.noun, 1, L - 1);
    NounTailSkipsEmpty(r.noun, 1, L - 1);
    assert NounSuffixTables[L - 1][0] == "";
    assert NounTail(r.noun, L - 1) == suffix + rest;
    assert NounTail(s.noun, L - 1) == "" + rest;
    assert NounType1Text(r.unparsed, r.noun[0]) == "" && NounType1Text(s.unparsed, s.noun[0]) == "";
    EmptyLeft(NounType1Text(r.unparsed, r.noun[0]), suffix + rest);
    EmptyLeft(NounType1Text(s.unparsed, s.noun[0]), "" + rest);
    EmptyLeft(NounSuffixTables[L - 1][0], rest);
    Assoc(r.unparsed, suffix, rest);
  }

  lemma VerbStepShape(s: WordState, r: WordState, L: nat, k: nat)
    requires s.Valid() && !s.isNoun && 1 <= s.level == L && 1 <= k < |VerbSuffixTables[L - 1]|
    requires SuffixStrips(s.unparsed, VerbSuffixTables[L - 1][k])
    requires r == s.(unparsed := DropSuffix(s.unparsed, VerbSuffixTables[L - 1][k]), level := L - 1,
                     verb := s.verb[L - 1 := k])
    ensures r.Valid() && RankBelow(r, s)
  {
  }

  lemma VerbStepSurface(s: WordState, r: WordState, L: nat, k: nat)
    requires s.Valid() && r.Valid() && !s.isNoun && 1 <= s.level == L && 1 <= k < |VerbSuffixTables[L - 1]|
    requires EndsWith(s.unparsed, VerbSuffixTables[L - 1][k])
    requires r == s.(unparsed := DropSuffix(s.unparsed, VerbSuffixTables[L - 1][k]), level := L - 1,
                     verb := s.verb[L - 1 := k])
    ensures r.Surface() == s.Surface()
  {
    var suffix := VerbSuffixTables[L - 1][k];
    var rovers := RoverText(s.negation, s.emphatic, s.negationFirst, L - 1);
    assert VerbSuffixTables[L - 1][0] == "";
    Assoc(suffix, VerbSuffixTables[L - 1][0], rovers);
    VerbTailInsert(s.verb, s.negation, s.emphatic, s.negationFirst,
                   r.verb, r.negation, r.emphatic, r.negationFirst, L, suffix);
    CoreInsert(s, r, suffix);
  }

  /** The noun branch with {-'oy} removed after a vowel, recorded as type 1
      suffix "oy"; it has no level left. */
  predicate CanStripApostropheOy(s: WordState) {
    s.level == 1 && s.isNoun && EndsWith(s.unparsed, "'oy") && EndsInVowel(DropSuffix(s.unparsed, "'oy"))
  }

  function ApostropheOyStripped(s: WordState): WordState
    requires CanStripApostropheOy(s) && |s.noun| == NounLevels
  {
    s.(unparsed := DropSuffix(s.unparsed, "'oy"), level := 0, noun := s.noun[0 := OyIndex])
  }

  lemma ApostropheOyStrippedKeeps(s: WordState)
    requires s.Valid() && CanStripApostropheOy(s)
    ensures |s.noun| == NounLevels
    ensures var r := ApostropheOyStripped(s);
      r.Valid() && r.Surface() == s.Surface() && 0 < |r.unparsed| < |s.unparsed| &&
      r.level == 0 && r.noun[0] == OyIndex && RankBelow(r, s) &&
      r.isNoun && r.NumberUnset() == s.NumberUnset()
  {
    var r := ApostropheOyStripped(s);
    ApostropheOyShape(s, r);
    ApostropheOySurface(s, r);
  }

  lemma ApostropheOyShape(s: WordState, r: WordState)
    requires s.Valid() && CanStripApostropheOy(s) && r == ApostropheOyStripped(s)
    ensures r.Valid() && 0 < |r.unparsed| < |s.unparsed| && RankBelow(r, s)
  {
  }

  lemma ApostropheOySurface(s: WordState, r: WordState)
    requires s.Valid() && r.Valid() && CanStripApostropheOy(s) && r == ApostropheOyStripped(s)
    ensures r.Surface() == s.Surface()
  {
    NoVerbPartCore(s);
    NoVerbPartCore(r);
    NounType1Move(r.unparsed, OyIndex, s.noun, r.noun, "'oy");
  }

  /** The parent after a level was examined. */
  function LevelDone(s: WordState): WordState
    requires s.level >= 1
  {
    s.(level := s.level - 1)
  }

  lemma LevelDoneKeeps(s: WordState)
    requires s.Valid() && s.level >= 1
    ensures var r := LevelDone(s);
      r.Valid() && r.Surface() == s.Surface() && RankBelow(r, s) &&
      SameFindings(s, r) && r.level == s.level - 1
  {
    var r := LevelDone(s);
    assert r.Valid() && RankBelow(r, s);
    assert CoreOf(r) == CoreOf(s);
    SurfaceFromCore(s, r);
  }

  /** The parent after a rover was split off from it: it ignores that rover
      from now on and stays at its level. */
  function NegationIgnored(s: WordState): WordState {
    s.(negation := IgnoreThisRover)
  }

  function EmphaticIgnored(s: WordState): WordState {
    s.(emphatic := IgnoreThisRover)
  }

  lemma IgnoredKeeps(s: WordState, r: WordState)
    requires s.Valid()
    requires (s.negation == RoverNotYetFound && r == NegationIgnored(s)) ||
             (s.emphatic == RoverNotYetFound && r == EmphaticIgnored(s))
    ensures r.Valid() && r.Surface() == s.Surface() && RankBelow(r, s)
    ensures SameFindings(s, r) && r.level == s.level
  {
    assert r.Valid() && RankBelow(r, s);
    forall k | 0 <= k < VerbLevels
      ensures RoverText(s.negation, s.emphatic, s.negationFirst, k)
           == RoverText(r.negation, r.emphatic, r.negationFirst, k)
    {
    }
    VerbTailFrame(s.verb, s.negation, s.emphatic, s.negationFirst,
                  r.verb, r.negation, r.emphatic, r.negationFirst, 0);
    SurfaceFromCore(s, r);
  }

  /** A noun that took a noun suffix and whose stem ends in {-wI'} or
      {-ghach} is analysed again as a verb from the outermost verb level. */
  predicate HasVerbRoot(s: WordState) {
    s.isNoun && s.level == 0 && (exists i :: 0 <= i < |s.noun| && s.noun[i] != 0) &&
    (EndsWith(s.unparsed, "ghach") || EndsWith(s.unparsed, "wI'"))
  }

  function VerbRoot(s: WordState): WordState {
    s.(isNoun := false, level := VerbLevels)
  }

  lemma VerbRootKeeps(s: WordState)
    requires s.Valid() && HasVerbRoot(s)
    ensures var r := VerbRoot(s);
      r.Valid() && r.Surface() == s.Surface() && RankBelow(r, s) &&
      !r.isNoun && r.level == VerbLevels && r.unparsed == s.unparsed && !r.Bare()
  {
    var r := VerbRoot(s);
    assert r.Valid() && RankBelow(r, s);
    assert CoreOf(r) == CoreOf(s);
    SurfaceFromCore(s, r);
  }

  /** A bare verb ending in a type 5 noun suffix: the adjectival verb before
      it, as a fresh verb candidate carrying that suffix and no level left.
      The stem may become empty here. */
  function Adjectival(s: WordState, i: nat): WordState
    requires i < |NounType5| && EndsWith(s.unparsed, NounType5[i])
  {
    var init := Initial(DropSuffix(s.unparsed, NounType5[i]), false);
    init.(noun := init.noun[4 := i], isVerbWithType5NounSuffix := true, level := 0)
  }

  lemma AdjectivalKeeps(s: WordState, i: nat)
    requires s.Valid() && !s.isNoun && s.Bare() && 1 <= i < |NounType5| && EndsWith(s.unparsed, NounType5[i])
    ensures var r := Adjectival(s, i);
      r.Valid() && r.Surface() == s.Surface() && RankBelow(r, s) && !r.Bare() && !r.isNoun &&
      |r.unparsed| < |s.unparsed| && r.isVerbWithType5NounSuffix && r.noun[4] == i && r.level == 0 &&
      r.negation == RoverNotYetFound && r.emphatic == RoverNotYetFound &&
      (forall j :: 0 <= j < VerbLevels ==> r.verb[j] == 0)
  {
    var r := Adjectival(s, i);
    AdjectivalShape(s, r, i);
    AdjectivalSurface(s, r, i);
  }

  lemma AdjectivalShape(s: WordState, r: WordState, i: nat)
    requires s.Valid() && !s.isNoun && s.Bare() && 1 <= i < |NounType5| && EndsWith(s.unparsed, NounType5[i])
    requires r == Adjectival(s, i)
    ensures r.Valid() && RankBelow(r, s) && !r.Bare()
    ensures |r.unparsed| < |s.unparsed| && r.noun[4] == i && r.level == 0
    ensures r.negation == RoverNotYetFound && r.emphatic == RoverNotYetFound
    ensures forall j :: 0 <= j < VerbLevels ==> r.verb[j] == 0
  {
    TablesShape();
    assert |NounType5[i]| > 0;
    assert r.noun[4] != 0;
  }

  lemma AdjectivalSurface(s: WordState, r: WordState, i: nat)
    requires s.Valid() && r.Valid() && s.Bare() && 1 <= i < |NounType5| && EndsWith(s.unparsed, NounType5[i])
    requires r == Adjectival(s, i)
    ensures r.Surface() == s.Surface()
  {
    BareSurface(s);
    NoVerbPartCore(r);
    NounType5Only(r.unparsed, r.noun);
  }

  /** An adjectival verb ending in {-be'}, {-qu'} or {-Ha'}: that ending is
      recorded directly on the verb, at level 0. {-Qo'} is not tried. */
  predicate HasAdjectivalRover(s: WordState) {
    EndsWith(s.unparsed, "be'") || EndsWith(s.unparsed, "qu'") || EndsWith(s.unparsed, "Ha'")
  }

  function AdjectivalRoverStripped(s: WordState): WordState
    requires HasAdjectivalRover(s) && |s.verb| == VerbLevels
  {
    var u := s.unparsed;
    var stem := u[..|u| - 3];
    if EndsWith(u, "be'") then s.(unparsed := stem, negation := 0)
    else if EndsWith(u, "qu'") then s.(unparsed := stem, emphatic := 0)
    else s.(unparsed := stem, verb := s.verb[0 := 1])
  }

  lemma AdjectivalRoverStrippedKeeps(s: WordState)
    requires s.Valid() && !s.isNoun && s.level == 0 && HasAdjectivalRover(s)
    requires s.negation == RoverNotYetFound && s.emphatic == RoverNotYetFound
    requires forall j :: 0 <= j < VerbLevels ==> s.verb[j] == 0
    ensures |s.verb| == VerbLevels
    ensures var r := AdjectivalRoverStripped(s);
      r.Valid() && r.Surface() == s.Surface() && r.level == 0 && !r.Bare() &&
      |r.unparsed| == |s.unparsed| - 3 && !r.isNoun && r.noun == s.noun
  {
    var r := AdjectivalRoverStripped(s);
    var ending := s.unparsed[|s.unparsed| - 3..];
    assert r.unparsed == DropSuffix(s.unparsed, ending);
    assert r.Valid() && |r.unparsed| == |s.unparsed| - 3;
    assert r.negation == 0 || r.emphatic == 0 || r.verb[0] != 0;
    AdjectivalRoverSurface(s, r, ending);
  }

  lemma AdjectivalRoverSurface(s: WordState, r: WordState, ending: string)
    requires s.Valid() && r.Valid() && !s.isNoun && s.level == 0 && HasAdjectivalRover(s)
    requires s.negation == RoverNotYetFound && s.emphatic == RoverNotYetFound
    requires forall j :: 0 <= j < VerbLevels ==> s.verb[j] == 0
    requires ending == s.unparsed[|s.unparsed| - 3..]
    requires r == AdjectivalRoverStripped(s)
    ensures r.Surface() == s.Surface()
  {
    assert r.unparsed == DropSuffix(s.unparsed, ending);
    assert VerbSuffixTables[0][0] == "" && VerbSuffixTables[0][1] == "Ha'";
    assert VerbSuffixTables[0][r.verb[0]] + RoverText(r.negation, r.emphatic, r.negationFirst, 0)
        == ending + VerbSuffixTables[0][s.verb[0]] + RoverText(s.negation, s.emphatic, s.negationFirst, 0);
    forall k | 1 <= k < VerbLevels
      ensures RoverText(s.negation, s.emphatic, s.negationFirst, k)
           == RoverText(r.negation, r.emphatic, r.negationFirst, k)
    {
    }
    VerbTailInsert(s.verb, s.negation, s.emphatic, s.negationFirst,
                   r.verb, r.negation, r.emphatic, r.negationFirst, 1, ending);
    CoreInsert(s, r, ending);
  }

  // ---------------------------------------------------------------------
  // One step of the search at a candidate: the parent's new state, and the
  // branch split off from it, if any.

  datatype Option<T> = None | Some(value: T)

  datatype Branching = Branching(parent: WordState, branch: Option<WordState>)

  /** What a step may do: the parent keeps its stem and every affix found so
      far, loses a level or an unresolved rover, and both still stand for
      the same word; a branch is a shorter, non-empty candidate for that
      word, lower in the measure. */
  ghost predicate StepKeeps(s: WordState, step: Branching)
    requires s.Valid()
  {
    step.parent.Valid() && SameFindings(s, step.parent) && step.parent.Surface() == s.Surface() &&
    (step.branch.Some? ==>
       step.branch.value.Valid() && step.branch.value.isNoun == s.isNoun &&
       step.branch.value.Surface() == s.Surface() &&
       0 < |step.branch.value.unparsed| < |s.unparsed| &&
       RankBelow(step.branch.value, s) && step.branch.value.NumberUnset() == s.NumberUnset())
  }

  /** The rovers are tried first: {-be'} before {-qu'}. */
  function RoverStep(s: WordState): Branching
    requires s.level >= 1
  {
    if CanStripNegation(s) then Branching(NegationIgnored(s), Some(NegationStripped(s)))
    else if CanStripEmphatic(s) then Branching(EmphaticIgnored(s), Some(EmphaticStripped(s)))
    else Branching(s, None)
  }

  lemma RoverStepKeeps(s: WordState)
    requires s.Valid() && !s.isNoun && s.level >= 1
    ensures var step := RoverStep(s);
      StepKeeps(s, step) && (step.branch.Some? ==> RankBelow(step.parent, s)) &&
      (step.branch.None? <==> !CanStripNegation(s) && !CanStripEmphatic(s)) &&
      (step.branch.None? ==> step.parent == s)
  {
    if CanStripNegation(s) {
      IgnoredKeeps(s, NegationIgnored(s));
      NegationStrippedKeeps(s);
    } else if CanStripEmphatic(s) {
      IgnoredKeeps(s, EmphaticIgnored(s));
      EmphaticStrippedKeeps(s);
    }
  }

  /** One level of the search: nothing at level 0; a rover branch for a verb
      that ends in one; otherwise the level is consumed and the first suffix
      of its table that strips is split off. */
  function BranchStep(s: WordState): Branching
    requires s.level <= (if s.isNoun then NounLevels else VerbLevels)
    requires |s.noun| == NounLevels && |s.verb| == VerbLevels
  {
    if s.level == 0 then Branching(s, None)
    else if !s.isNoun && (CanStripNegation(s) || CanStripEmphatic(s)) then RoverStep(s)
    else
      var k := FirstEnding(s.unparsed, TableAt(s.isNoun, s.level), true);
      Branching(LevelDone(s), if k == 0 then None else Some(SuffixStripped(s, k)))
  }

  lemma BranchStepKeeps(s: WordState)
    requires s.Valid()
    ensures |s.noun| == NounLevels && |s.verb| == VerbLevels
    ensures var step := BranchStep(s);
      StepKeeps(s, step) &&
      (s.level == 0 ==> step == Branching(s, None)) &&
      (s.level > 0 ==> RankBelow(step.parent, s))
  {
    if s.level == 0 {
    } else if !s.isNoun && (CanStripNegation(s) || CanStripEmphatic(s)) {
      RoverStepKeeps(s);
    } else {
      LevelDoneKeeps(s);
      var k := FirstEnding(s.unparsed, TableAt(s.isNoun, s.level), true);
      if k != 0 {
        SuffixStrippedKeeps(s, k);
      }
    }
  }

  // The display list of the suffixes found (getSuffixesString).

  /** A single name is listed as " + " and the name. */
  lemma ListingOne(x: string)
    ensures Listing([x]) == " + " + x
  {
    assert [x][..0] == [];
  }

  /** A suffix chosen from a table is listed under its hyphenated name. */
  lemma SuffixListed(x: string)
    ensures Listing(["-" + x]) == " + -" + x
  {
    ListingOne("-" + x);
  }

  /** The rovers of a level, named as getRovers names them, are listed as
      ListedRoverItem writes them. */
  lemma RoversListed(s: WordState, i: nat)
    ensures Listing(RoversAt(s.negation, s.emphatic, s.negationFirst, i)) == s.ListedRoverItem(i)
  {
    var rovers := RoversAt(s.negation, s.emphatic, s.negationFirst, i);
    if |rovers| == 2 {
      ListingOne(rovers[0]);
      assert rovers[..1] == [rovers[0]];
    } else if |rovers| == 1 {
      ListingOne(rovers[0]);
      assert rovers == [rovers[0]];
    }
  }

  /** The verb levels below `n`, listed with every rover hyphenated, list
      exactly the names found there. */
  lemma {:induction false} VerbListedAsNamed(s: WordState, n: nat)
    requires ChoicesInRange(s.verb, VerbSuffixTables) && n <= VerbLevels
    ensures s.ListedVerbSuffixesText(n) == Listing(s.VerbNames(n))
  {
    if n > 0 {
      VerbListedAsNamed(s, n - 1);
      var i := n - 1;
      var named := if s.verb[i] != 0 then ["-" + VerbSuffixTables[i][s.verb[i]]] else [];
      var rovers := RoversAt(s.negation, s.emphatic, s.negationFirst, i);
      ListingAppend(s.VerbNames(i), named);
      ListingAppend(s.VerbNames(i) + named, rovers);
      if s.verb[i] != 0 {
        SuffixListed(VerbSuffixTables[i][s.verb[i]]);
      }
      RoversListed(s, i);
      assert s.VerbNames(n) == s.VerbNames(i) + named + rovers;
      assert s.ListedVerbSuffixesText(n) == s.ListedVerbSuffixesText(i) + Listing(named) + Listing(rovers);
    }
  }

  /** The noun types below `n` list exactly the names found there. */
  lemma {:induction false} NounListedAsNamed(s: WordState, n: nat)
    requires ChoicesInRange(s.noun, NounSuffixTables) && n <= NounLevels
    ensures s.NounSuffixesText(n) == Listing(s.NounNames(n))
  {
    if n > 0 {
      NounListedAsNamed(s, n - 1);
      var j := n - 1;
      var named := if s.noun[j] != 0 then ["-" + NounSuffixTables[j][s.noun[j]]] else [];
      ListingAppend(s.NounNames(j), named);
      if s.noun[j] != 0 {
        SuffixListed(NounSuffixTables[j][s.noun[j]]);
      }
      assert s.NounNames(n) == s.NounNames(j) + named;
      assert s.NounSuffixesText(n) == s.NounSuffixesText(j) + Listing(named);
    }
  }

  /** With every rover hyphenated, the display list is the list of the
      names of the suffixes and rovers found, in order. */
  lemma ListedSuffixesTextNamesEach(s: WordState)
    requires ChoicesInRange(s.noun, NounSuffixTables) && ChoicesInRange(s.verb, VerbSuffixTables)
    ensures s.ListedSuffixesText() == Listing(s.SuffixNames())
  {
    VerbListedAsNamed(s, VerbLevels);
    NounListedAsNamed(s, NounLevels);
    ListingAppend(s.VerbNames(VerbLevels), s.NounNames(NounLevels));
  }

  /** The verb levels below `n` as written differ from the listed ones only
      by the one hyphen missing where both rovers share a level. */
  lemma {:induction false} VerbSuffixesTextAsListed(s: WordState, n: nat)
    requires ChoicesInRange(s.verb, VerbSuffixTables) && n <= VerbLevels
    ensures |s.ListedVerbSuffixesText(n)|
            == |s.VerbSuffixesText(n)| + (if s.negation == s.emphatic && 0 <= s.negation < n then 1 else 0)
    ensures !(s.negation == s.emphatic && 0 <= s.negation < n)
            ==> s.ListedVerbSuffixesText(n) == s.VerbSuffixesText(n)
  {
    if n > 0 {
      VerbSuffixesTextAsListed(s, n - 1);
    }
  }

  /** getSuffixesString writes the list of names found exactly when the two
      rovers do not share a level; when they do, the second one loses its
      hyphen. */
  lemma SuffixesTextAsListed(s: WordState)
    requires ChoicesInRange(s.noun, NounSuffixTables) && ChoicesInRange(s.verb, VerbSuffixTables)
    ensures s.SuffixesText() == Listing(s.SuffixNames())
            <==> !(s.negation == s.emphatic && 0 <= s.negation < VerbLevels)
  {
    ListedSuffixesTextNamesEach(s);
    VerbSuffixesTextAsListed(s, VerbLevels);
  }

  /** A verb whose only finding is {-be'} followed by {-qu'} on its stem:
      getRovers names them "-be'" and "-qu'", getSuffixesString writes
      " + -be' + qu'", which is not the list of those names. */
  lemma BothRoversListedWithoutHyphen()
    ensures var s := Initial("", false).(level := 0, negation := 0, emphatic := 0, negationFirst := true);
      RoversAt(s.negation, s.emphatic, s.negationFirst, 0) == ["-be'", "-qu'"]
      && s.RoverItem(0) == " + -be' + qu'"
      && s.SuffixesText() != Listing(s.SuffixNames())
  {
    var s := Initial("", false).(level := 0, negation := 0, emphatic := 0, negationFirst := true);
    SuffixesTextAsListed(s);
  }
}
