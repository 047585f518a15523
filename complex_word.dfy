/** The morphological analyzer as the program runs it: `ComplexWord`
    objects whose fields the search updates in place, and the recursive
    search that collects finished candidates into a list. Every operation
    that changes a candidate is specified by the value-level transition of
    module WordStates that it performs. */
module ComplexWords {
  import opened Strings
  import opened AffixTables
  import opened WordStates
  import opened WordParts
  import opened Searches

  // ---------------------------------------------------------------------
  // The table scans of the analyzer. Each is the loop of one operation
  // below, written once over any table.

  /** The scan of stripPrefix: the first entry from index 1 on that the stem
      starts with and whose removal leaves something. */
  method FindPrefix(stem: string, table: seq<string>) returns (i: nat)
    ensures i == FirstStart(stem, table)
  {
    i := 1;
    while i < |table|
      invariant 1 <= i
      invariant forall j :: 1 <= j < i && j < |table| ==> !StartStrips(stem, table[j])
    {
      if StartsWith(stem, table[i]) {
        var rest := stem[|table[i]|..];
        if rest != "" {
          return;
        }
      }
      i := i + 1;
    }
    i := 0;
  }

  /** The scan of stripSuffixAndBranch: the first entry from index 1 on that
      the stem ends with, whose removal leaves something, and that is not
      "oy" after a vowel. */
  method FindSuffix(stem: string, table: seq<string>) returns (i: nat)
    ensures i == FirstEnding(stem, table, true)
  {
    i := 1;
    while i < |table|
      invariant 1 <= i
      invariant forall j :: 1 <= j < i && j < |table| ==> !(EndsWith(stem, table[j]) && SuffixStrips(stem, table[j]))
    {
      if EndsWith(stem, table[i]) {
        var rest := stem[..|stem| - |table[i]|];
        if rest != "" && (table[i] != "oy" || !EndsInVowel(rest)) {
          assert rest == DropSuffix(stem, table[i]);
          return;
        }
      }
      i := i + 1;
    }
    i := 0;
  }

  /** The first entry from index 1 on that the stem ends with. */
  method FindEnding(stem: string, table: seq<string>) returns (i: nat)
    ensures i == FirstEnding(stem, table, false)
  {
    i := 1;
    while i < |table|
      invariant 1 <= i
      invariant forall j :: 1 <= j < i && j < |table| ==> !EndsWith(stem, table[j])
    {
      if EndsWith(stem, table[i]) {
        return;
      }
      i := i + 1;
    }
    i := 0;
  }

  /** The first entry from index 1 on equal to `x`. */
  method FindEntry(table: seq<string>, x: string) returns (i: nat)
    ensures i == EntryFrom(table, x, 1)
  {
    i := 1;
    while i < |table|
      invariant 1 <= i
      invariant forall j :: 1 <= j < i && j < |table| ==> x != table[j]
    {
      if x == table[i] {
        return;
      }
      i := i + 1;
    }
    i := 0;
  }

  /** The scan of attachPrefix: the first entry from index 1 on whose name,
      with a trailing hyphen, is `name`. */
  method FindPrefixNamed(table: seq<string>, name: string) returns (i: nat)
    ensures i == PrefixNamed(table, name)
  {
    i := 1;
    while i < |table|
      invariant 1 <= i
      invariant forall j :: 1 <= j < i && j < |table| ==> table[j] + "-" != name
    {
      if name == table[i] + "-" {
        return;
      }
      i := i + 1;
    }
    i := 0;
  }

  /** The scan of attachSuffix: table by table, the first entry from index 1
      on whose hyphenated name is `name`. */
  method FindSlot(tables: seq<seq<string>>, name: string) returns (slot: Slot)
    ensures slot == FindName(tables, name)
  {
    var i := 0;
    while i < |tables|
      invariant 0 <= i <= |tables|
      invariant forall t, l :: 0 <= t < i && 1 <= l < |tables[t]| ==> "-" + tables[t][l] != name
    {
      var j := 1;
      while j < |tables[i]|
        invariant 1 <= j
        invariant forall l :: 1 <= l < j && l < |tables[i]| ==> "-" + tables[i][l] != name
      {
        if name == "-" + tables[i][j] {
          return Slot(i, j);
        }
        j := j + 1;
      }
      i := i + 1;
    }
    return Slot(0, 0);
  }

  /** The names of the choices, one per table. */
  method NamesOf(choice: seq<nat>, tables: seq<seq<string>>) returns (names: seq<string>)
    requires ChoicesInRange(choice, tables)
    ensures names == SlotNames(choice, tables)
  {
    names := [];
    var i := 0;
    while i < |choice|
      invariant 0 <= i <= |choice| && |names| == i
      invariant forall k :: 0 <= k < i ==> names[k] == SlotName(tables, k, choice[k])
    {
      names := names + [(if choice[i] == 0 then "" else "-") + tables[i][choice[i]]];
      i := i + 1;
    }
  }

  /** One candidate analysis of a word. The suffix index arrays of the
      program are `seq` fields here: no two candidates ever share one. */
  class ComplexWord {
    var unparsedPart: string
    var isNounCandidate: bool
    var isVerbWithType5NounSuffix: bool
    var homophoneNumber: int
    var suffixLevel: nat
    var verbPrefix: nat
    var nounSuffixes: seq<nat>
    var verbSuffixes: seq<nat>
    var negation: int
    var emphatic: int
    var negationBeforeEmphatic: bool
    var numberDigit: nat
    var numberModifier: nat
    var numberSuffix: string
    var isNumberLike: bool

    /** The fields as a value. */
    function State(): WordState
      reads this
    {
      WordState(unparsedPart, isNounCandidate, isVerbWithType5NounSuffix, homophoneNumber,
                suffixLevel, verbPrefix, nounSuffixes, verbSuffixes, negation, emphatic,
                negationBeforeEmphatic, numberDigit, numberModifier, numberSuffix, isNumberLike)
    }

    /** A fresh candidate: the whole word, every level still to examine. */
    constructor (candidate: string, isNoun: bool)
      ensures State() == Initial(candidate, isNoun)
    {
      unparsedPart := candidate;
      isNounCandidate := isNoun;
      isVerbWithType5NounSuffix := false;
      homophoneNumber := -1;
      suffixLevel := if isNoun then NounLevels else VerbLevels;
      nounSuffixes := seq(NounLevels, _ => 0);
      verbPrefix := 0;
      verbSuffixes := seq(VerbLevels, _ => 0);
      negation := RoverNotYetFound;
      emphatic := RoverNotYetFound;
      negationBeforeEmphatic := false;
      numberDigit := 0;
      numberModifier := 0;
      numberSuffix := "";
      isNumberLike := false;
    }

    /** A copy of `other` with the stem replaced. */
    constructor Copy(unparsed: string, other: ComplexWord)
      ensures State() == other.State().(unparsed := unparsed)
    {
      unparsedPart := unparsed;
      isNounCandidate := other.isNounCandidate;
      isVerbWithType5NounSuffix := other.isVerbWithType5NounSuffix;
      homophoneNumber := other.homophoneNumber;
      suffixLevel := other.suffixLevel;
      verbPrefix := other.verbPrefix;
      nounSuffixes := other.nounSuffixes;
      verbSuffixes := other.verbSuffixes;
      negation := other.negation;
      emphatic := other.emphatic;
      negationBeforeEmphatic := other.negationBeforeEmphatic;
      numberDigit := other.numberDigit;
      numberModifier := other.numberModifier;
      numberSuffix := other.numberSuffix;
      isNumberLike := other.isNumberLike;
    }

    method SetHomophoneNumber(number: int)
      modifies this
      ensures State() == old(State()).(homophone := number)
    {
      homophoneNumber := number;
    }

    /** The branch with the first verb prefix in table order removed, if one
        leaves a non-empty stem; nouns take no prefix. */
    method StripPrefix() returns (r: ComplexWord?)
      ensures r == null <==> isNounCandidate || FirstStart(unparsedPart, VerbPrefixes) == 0
      ensures r != null ==>
        fresh(r) && r.State() == PrefixStripped(State(), FirstStart(unparsedPart, VerbPrefixes))
    {
      if isNounCandidate {
        return null;
      }
      var i := FindPrefix(unparsedPart, VerbPrefixes);
      if i != 0 {
        r := new ComplexWord.Copy(unparsedPart[|VerbPrefixes[i]|..], this);
        r.verbPrefix := i;
      } else {
        r := null;
      }
    }

    /** The rover branch of a verb: {-be'} first, then {-qu'}, never the
        whole stem. The parent ignores that rover from now on. */
    method StripRovers() returns (r: ComplexWord?)
      requires suffixLevel >= 1
      modifies this
      ensures var step := RoverStep(old(State()));
        State() == step.parent && (r == null <==> step.branch.None?) &&
        (r != null ==> fresh(r) && r.State() == step.branch.value)
    {
      if negation == RoverNotYetFound && EndsWith(unparsedPart, "be'") && unparsedPart != "be'" {
        r := StripNegation();
      } else if emphatic == RoverNotYetFound && EndsWith(unparsedPart, "qu'") && unparsedPart != "qu'" {
        r := StripEmphatic();
      } else {
        r := null;
      }
    }

    /** The {-be'} half of StripRovers. */
    method StripNegation() returns (r: ComplexWord)
      requires suffixLevel >= 1 && CanStripNegation(State())
      modifies this
      ensures State() == NegationIgnored(old(State()))
      ensures fresh(r) && r.State() == NegationStripped(old(State()))
    {
      var partWithRoversRemoved := unparsedPart[..|unparsedPart| - 3];
      r := new ComplexWord.Copy(partWithRoversRemoved, this);
      negation := IgnoreThisRover;
      r.negation := suffixLevel - 1;
      r.suffixLevel := suffixLevel;
      if r.emphatic == suffixLevel - 1 {
        r.negationBeforeEmphatic := true;
      }
    }

    /** The {-qu'} half of StripRovers. */
    method StripEmphatic() returns (r: ComplexWord)
      requires suffixLevel >= 1 && CanStripEmphatic(State())
      modifies this
      ensures State() == EmphaticIgnored(old(State()))
      ensures fresh(r) && r.State() == EmphaticStripped(old(State()))
    {
      var partWithRoversRemoved := unparsedPart[..|unparsedPart| - 3];
      r := new ComplexWord.Copy(partWithRoversRemoved, this);
      emphatic := IgnoreThisRover;
      r.emphatic := suffixLevel - 1;
      r.suffixLevel := suffixLevel;
      if r.negation == suffixLevel - 1 {
        r.negationBeforeEmphatic := false;
      }
    }

    /** One level of the search: the parent moves down a level (or past a
        rover), and the branch split off, if any, is returned. */
    method StripSuffixAndBranch() returns (r: ComplexWord?)
      requires suffixLevel <= (if isNounCandidate then NounLevels else VerbLevels)
      requires |nounSuffixes| == NounLevels && |verbSuffixes| == VerbLevels
      modifies this
      ensures var step := BranchStep(old(State()));
        State() == step.parent && (r == null <==> step.branch.None?) &&
        (r != null ==> fresh(r) && r.State() == step.branch.value)
    {
      if suffixLevel == 0 {
        return null;
      }
      var suffixes: seq<string>;
      if isNounCandidate {
        suffixLevel := suffixLevel - 1;
        suffixes := NounSuffixTables[suffixLevel];
      } else {
        r := StripRovers();
        if r != null {
          return;
        }
        suffixLevel := suffixLevel - 1;
        suffixes := VerbSuffixTables[suffixLevel];
      }
      var i := FindSuffix(unparsedPart, suffixes);
      if i != 0 {
        r := SplitSuffix(old(State()), suffixes, i);
      } else {
        r := null;
      }
    }

    /** The branch of StripSuffixAndBranch, made once the level of state `s`
        has been consumed: the suffix at index `i` of that level's table is
        removed and recorded in its slot. */
    method SplitSuffix(ghost s: WordState, suffixes: seq<string>, i: nat) returns (r: ComplexWord)
      requires HasTable(s) && State() == LevelDone(s) && suffixes == TableAt(s.isNoun, s.level)
      requires i < |suffixes| && EndsWith(unparsedPart, suffixes[i])
      ensures fresh(r) && r.State() == SuffixStripped(s, i)
    {
      var partWithSuffixRemoved := unparsedPart[..|unparsedPart| - |suffixes[i]|];
      r := new ComplexWord.Copy(partWithSuffixRemoved, this);
      r.suffixLevel := suffixLevel;
      if isNounCandidate {
        r.nounSuffixes := r.nounSuffixes[suffixLevel := i];
      } else {
        r.verbSuffixes := r.verbSuffixes[suffixLevel := i];
      }
    }

    /** The {-'oy} branch of a noun at its last level. */
    method MaybeStripApostropheOy() returns (r: ComplexWord?)
      requires |nounSuffixes| == NounLevels
      ensures r == null <==> !CanStripApostropheOy(State())
      ensures r != null ==> fresh(r) && r.State() == ApostropheOyStripped(State())
    {
      if suffixLevel == 1 && isNounCandidate && EndsWith(unparsedPart, "'oy") {
        var partWithSuffixRemoved := unparsedPart[..|unparsedPart| - 3];
        if EndsInVowel(partWithSuffixRemoved) {
          r := new ComplexWord.Copy(partWithSuffixRemoved, this);
          r.suffixLevel := 0;
          r.nounSuffixes := r.nounSuffixes[0 := 3];
          return;
        }
      }
      r := null;
    }

    /** A noun candidate marked as a number word. */
    predicate IsNumberLike()
      reads this
    {
      isNounCandidate && isNumberLike
    }

    /** Whether every suffix level has been examined. */
    predicate HasNoMoreSuffixes()
      reads this
    {
      suffixLevel == 0
    }

    /** Whether the candidate is the word itself: no prefix, no rover found
        and every suffix index 0. */
    method IsBareWord() returns (bare: bool)
      ensures bare == State().Bare()
    {
      if verbPrefix != 0 {
        return false;
      }
      if negation >= 0 || emphatic >= 0 {
        return false;
      }
      var i := 0;
      while i < |nounSuffixes|
        invariant 0 <= i <= |nounSuffixes|
        invariant forall k :: 0 <= k < i ==> nounSuffixes[k] == 0
      {
        if nounSuffixes[i] != 0 {
          return false;
        }
        i := i + 1;
      }
      var j := 0;
      while j < |verbSuffixes|
        invariant 0 <= j <= |verbSuffixes|
        invariant forall k :: 0 <= k < j ==> verbSuffixes[k] == 0
      {
        if verbSuffixes[j] != 0 {
          return false;
        }
        j := j + 1;
      }
      return true;
    }

    /** Whether no noun suffix was found. */
    method NoNounSuffixesFound() returns (none: bool)
      ensures none <==> forall k :: 0 <= k < |nounSuffixes| ==> nounSuffixes[k] == 0
    {
      var i := 0;
      while i < |nounSuffixes|
        invariant 0 <= i <= |nounSuffixes|
        invariant forall k :: 0 <= k < i ==> nounSuffixes[k] == 0
      {
        if nounSuffixes[i] != 0 {
          return false;
        }
        i := i + 1;
      }
      return true;
    }

    /** A finished noun candidate that took a noun suffix and ends in {-wI'}
        or {-ghach}, re-entered as a verb at the outermost verb level. */
    method GetVerbRootIfNoun() returns (r: ComplexWord?)
      requires |verbSuffixes| == VerbLevels
      ensures r == null <==> !HasVerbRoot(State())
      ensures r != null ==> fresh(r) && r.State() == VerbRoot(State())
    {
      if !isNounCandidate || suffixLevel != 0 {
        return null;
      }
      var none := NoNounSuffixesFound();
      if !none && (EndsWith(unparsedPart, "ghach") || EndsWith(unparsedPart, "wI'")) {
        r := new ComplexWord.Copy(unparsedPart, this);
        r.isNounCandidate := false;
        r.suffixLevel := |r.verbSuffixes|;
        return;
      }
      return null;
    }

    /** For a bare verb, the adjectival verb before its first type 5 noun
        suffix in table order, carrying that suffix, with no level left. */
    method GetAdjectivalVerbWithType5NounSuffix() returns (r: ComplexWord?)
      ensures r == null <==>
        isNounCandidate || !State().Bare() || FirstEnding(unparsedPart, NounType5, false) == 0
      ensures r != null ==>
        fresh(r) && r.State() == Adjectival(State(), FirstEnding(unparsedPart, NounType5, false))
    {
      var bare := IsBareWord();
      if isNounCandidate || !bare {
        return null;
      }
      var i := FindEnding(unparsedPart, NounType5);
      if i != 0 {
        var adjectivalVerb := unparsedPart[..|unparsedPart| - |NounType5[i]|];
        assert adjectivalVerb == DropSuffix(unparsedPart, NounType5[i]);
        r := NewAdjectival(adjectivalVerb, i);
        return;
      }
      return null;
    }

    /** A new verb candidate for `adjectivalVerb`, carrying type 5 noun
        suffix `i` and no level left. */
    static method NewAdjectival(adjectivalVerb: string, i: nat) returns (r: ComplexWord)
      ensures fresh(r)
      ensures var init := Initial(adjectivalVerb, false);
        r.State() == init.(noun := init.noun[4 := i], isVerbWithType5NounSuffix := true, level := 0)
    {
      r := new ComplexWord(adjectivalVerb, false);
      r.nounSuffixes := r.nounSuffixes[4 := i];
      r.isVerbWithType5NounSuffix := true;
      r.suffixLevel := 0;
    }

    /** The entry names of the verb suffixes, one per verb level. */
    method GetVerbSuffixes() returns (names: seq<string>)
      requires ChoicesInRange(verbSuffixes, VerbSuffixTables)
      ensures names == SlotNames(verbSuffixes, VerbSuffixTables)
    {
      names := NamesOf(verbSuffixes, VerbSuffixTables);
    }

    /** The entry names of the noun suffixes, one per noun type. */
    method GetNounSuffixes() returns (names: seq<string>)
      requires ChoicesInRange(nounSuffixes, NounSuffixTables)
      ensures names == SlotNames(nounSuffixes, NounSuffixTables)
    {
      names := NamesOf(nounSuffixes, NounSuffixTables);
    }

    /** The suffixes and rovers found, for display, as SuffixesText
        describes them: verb levels first, then noun types. */
    method GetSuffixesString() returns (suffixesString: string)
      requires ChoicesInRange(nounSuffixes, NounSuffixTables)
      requires ChoicesInRange(verbSuffixes, VerbSuffixTables)
      ensures suffixesString == State().SuffixesText()
    {
      ghost var s := State();
      suffixesString := "";
      var i := 0;
      while i < |verbSuffixes|
        invariant 0 <= i <= VerbLevels && suffixesString == s.VerbSuffixesText(i)
      {
        var suffixes := VerbSuffixTables[i];
        var suffix := if verbSuffixes[i] != 0 then " + -" + suffixes[verbSuffixes[i]] else "";
        var rovers := "";
        if negation == i && emphatic == i {
          if negationBeforeEmphatic {
            rovers := " + -be' + qu'";
          } else {
            rovers := " + -qu' + be'";
          }
        } else if negation == i {
          rovers := " + -be'";
        } else if emphatic == i {
          rovers := " + -qu'";
        }
        assert suffix == s.VerbSuffixItem(i) && rovers == s.RoverItem(i);
        assert s.VerbSuffixesText(i + 1) == s.VerbSuffixesText(i) + suffix + rovers;
        suffixesString := suffixesString + suffix + rovers;
        i := i + 1;
      }
      ghost var verbPart := suffixesString;
      var j := 0;
      while j < |nounSuffixes|
        invariant 0 <= j <= NounLevels && suffixesString == verbPart + s.NounSuffixesText(j)
      {
        var suffixes := NounSuffixTables[j];
        var suffix := if nounSuffixes[j] != 0 then " + -" + suffixes[nounSuffixes[j]] else "";
        assert suffix == s.NounSuffixItem(j);
        assert s.NounSuffixesText(j + 1) == s.NounSuffixesText(j) + suffix;
        Assoc(verbPart, s.NounSuffixesText(j), suffix);
        suffixesString := suffixesString + suffix;
        j := j + 1;
      }
    }

    /** A verb takes the prefix with the given name, if there is one. */
    method AttachPrefix(prefix: string)
      modifies this
      ensures State() == PrefixAttached(old(State()), prefix)
    {
      if isNounCandidate {
        return;
      }
      var i := FindPrefixNamed(VerbPrefixes, prefix);
      if i != 0 {
        verbPrefix := i;
      }
    }

    /** Attaches a suffix by name and returns the verb suffix level after it. */
    method AttachSuffix(suffix: string, isNounSuffix: bool, verbSuffixLevel: int) returns (level: int)
      requires |nounSuffixes| == NounLevels && |verbSuffixes| == VerbLevels
      modifies this
      ensures var a := SuffixAttached(old(State()), suffix, isNounSuffix, verbSuffixLevel);
        State() == a.state && level == a.level
    {
      if suffix == "-DIch" || suffix == "-logh" {
        isNumberLike := true;
        numberSuffix := suffix[1..];
        return verbSuffixLevel;
      }
      if isNounSuffix {
        assert |NounSuffixTables| == NounLevels;
        var slot := FindSlot(NounSuffixTables, suffix);
        if slot.index != 0 {
          nounSuffixes := nounSuffixes[slot.table := slot.index];
        }
        return verbSuffixLevel;
      }
      level := AttachVerbSuffix(suffix, verbSuffixLevel);
    }

    /** The verb half of AttachSuffix: a rover is recorded at the current
        level, any other suffix sets its slot and becomes the level. */
    method AttachVerbSuffix(suffix: string, verbSuffixLevel: int) returns (level: int)
      requires |nounSuffixes| == NounLevels && |verbSuffixes| == VerbLevels
      requires suffix != "-DIch" && suffix != "-logh"
      modifies this
      ensures var a := SuffixAttached(old(State()), suffix, false, verbSuffixLevel);
        State() == a.state && level == a.level
    {
      if suffix == "-be'" {
        negation := verbSuffixLevel;
        if emphatic == verbSuffixLevel {
          negationBeforeEmphatic := false;
        }
        return verbSuffixLevel;
      } else if suffix == "-qu'" {
        emphatic := verbSuffixLevel;
        if negation == verbSuffixLevel {
          negationBeforeEmphatic := true;
        }
        return verbSuffixLevel;
      }
      assert |VerbSuffixTables| == VerbLevels;
      var slot := FindSlot(VerbSuffixTables, suffix);
      if slot.index != 0 {
        verbSuffixes := verbSuffixes[slot.table := slot.index];
        return slot.table;
      }
      return verbSuffixLevel;
    }

    /** The number detection of addSelf, written on the fields: only the
        number fields of a noun change. */
    method DetectNumbers()
      requires numberDigit < |NumberDigits| && numberModifier < |NumberModifiers|
      modifies this
      ensures State() == NumbersDetected(old(State()))
    {
      if !isNounCandidate {
        return;
      }
      var bare := IsBareWord();
      var f := DetectNumbersOf(State(), unparsedPart, bare,
                               NumberFields(numberDigit, numberModifier, numberSuffix, isNumberLike));
      SetNumbers(f);
    }

    /** Writes the number fields. */
    method SetNumbers(f: NumberFields)
      modifies this
      ensures State() == old(State()).(numberDigit := f.digit, numberModifier := f.modifier,
                                       numberSuffix := f.suffix, numberLike := f.like)
    {
      numberDigit, numberModifier, numberSuffix, isNumberLike := f.digit, f.modifier, f.suffix, f.like;
    }

    /** Adds a finished candidate to the list, after number detection; a
        candidate with levels left is not added. */
    method AddSelf(list: ComplexWordList)
      requires numberDigit < |NumberDigits| && numberModifier < |NumberModifiers|
      requires list.Valid() && this !in list.words
      modifies this, list
      ensures list.Valid()
      ensures old(suffixLevel) != 0 ==>
        State() == old(State()) && list.words == old(list.words) && list.found == old(list.found)
      ensures old(suffixLevel) == 0 ==>
        State() == NumbersDetected(old(State())) &&
        list.words == old(list.words) + [this] && list.found == old(list.found) + [State()]
    {
      if suffixLevel != 0 {
        return;
      }
      DetectNumbers();
      list.Add(this);
    }
  }

  /** The list finished candidates are collected into. Alongside the
      objects it keeps, it records as a ghost the state of each, which the
      objects keep: once added, a candidate is no longer changed. */
  class ComplexWordList {
    var words: seq<ComplexWord>
    ghost var found: seq<WordState>

    ghost predicate Valid()
      reads this, words
    {
      |found| == |words| && forall k :: 0 <= k < |words| ==> words[k].State() == found[k]
    }

    constructor ()
      ensures Valid() && words == [] && found == []
    {
      words := [];
      found := [];
    }

    method Add(w: ComplexWord)
      requires Valid()
      modifies this
      ensures Valid() && words == old(words) + [w] && found == old(found) + [w.State()]
    {
      words := words + [w];
      found := found + [w.State()];
    }
  }

  /** The number detection of addSelf as a scan: the number suffix, then
      the first modifier in table order, then the digit the root equals. */
  method DetectNumberFields(stem: string, bare: bool, before: NumberFields) returns (f: NumberFields)
    requires before.digit < |NumberDigits| && before.modifier < |NumberModifiers|
    ensures f == DetectNumber(stem, bare, before)
  {
    var numberRoot, suffix := SplitNumberSuffix(stem, bare, before.suffix);
    var m := FindEnding(numberRoot, NumberModifiers);
    var modifier := if m == 0 then before.modifier else m;
    numberRoot := StripModifier(numberRoot, m);
    var d := FindEntry(NumberDigits, numberRoot);
    var digit := if d == 0 then before.digit else d;
    var like := if d == 0 then before.like else true;
    if modifier == 0 && suffix == "" {
      digit, like := 0, false;
    }
    if suffix != "" && (numberRoot == "pagh" || numberRoot == "Hoch" || numberRoot == "'ar") {
      like := true;
    }
    f := NumberFields(digit, modifier, suffix, like);
  }

  /** The number fields a noun in state `s` gets. */
  method DetectNumbersOf(ghost s: WordState, stem: string, bare: bool, before: NumberFields)
    returns (f: NumberFields)
    requires s.isNoun && s.numberDigit < |NumberDigits| && s.numberModifier < |NumberModifiers|
    requires stem == s.unparsed && bare == s.Bare()
    requires before == NumberFields(s.numberDigit, s.numberModifier, s.numberSuffix, s.numberLike)
    ensures NumbersDetected(s) ==
      s.(numberDigit := f.digit, numberModifier := f.modifier, numberSuffix := f.suffix, numberLike := f.like)
  {
    f := DetectNumberFields(stem, bare, before);
    NumbersDetectedBy(s, f);
  }

  /** The number suffix split off a stem, if it has one. */
  method SplitNumberSuffix(stem: string, bare: bool, before: string) returns (base: string, suffix: string)
    ensures base == NumberBase(stem, bare)
    ensures suffix == if HasNumberSuffix(stem, bare) then stem[|stem| - 4..] else before
  {
    base, suffix := stem, before;
    if EndsWith(stem, "DIch") || (bare && EndsWith(stem, "logh")) {
      var rootLength := |stem| - 4;
      base := stem[..rootLength];
      suffix := stem[rootLength..];
    }
  }

  /** The number base without the modifier found at index `m`. */
  method StripModifier(base: string, m: nat) returns (root: string)
    requires m == FirstEnding(base, NumberModifiers, false)
    ensures root == if m == 0 then base else DropSuffix(base, NumberModifiers[m])
  {
    root := base;
    if m != 0 {
      root := base[..|base| - |NumberModifiers[m]|];
    }
  }

  /** The branch of an adjectival verb that ends in {-be'}, {-qu'} or
      {-Ha'}: that ending recorded on the verb itself. */
  method AdjectivalRoverBranch(adjective: ComplexWord) returns (another: ComplexWord)
    requires HasAdjectivalRover(adjective.State()) && |adjective.verbSuffixes| == VerbLevels
    ensures fresh(another) && another.State() == AdjectivalRoverStripped(adjective.State())
  {
    var adjectivalVerb := adjective.unparsedPart;
    var adjectivalVerbWithoutRover := adjectivalVerb[..|adjectivalVerb| - 3];
    another := new ComplexWord.Copy(adjectivalVerbWithoutRover, adjective);
    if EndsWith(adjectivalVerb, "be'") {
      another.negation := 0;
    } else if EndsWith(adjectivalVerb, "qu'") {
      another.emphatic := 0;
    } else {
      another.verbSuffixes := another.verbSuffixes[0 := 1];
    }
  }

  /** Every candidate analysis of `candidate` read as a noun or as a verb is
      added to the list, as Parse describes: a verb is first searched
      without its first prefix. The objects added are new and each holds
      the state Parse gives at its position; those states are finished
      analyses standing for `candidate`, and one is the word itself with
      no affix. */
  method ParseComplexWord(candidate: string, isNounCandidate: bool, list: ComplexWordList)
    requires list.Valid()
    modifies list
    ensures list.Valid() && list.found == old(list.found) + Parse(candidate, isNounCandidate)
    ensures old(list.words) <= list.words
    ensures forall w :: w in list.words ==> w in old(list.words) || fresh(w)
    ensures |list.words| == |old(list.words)| + |Parse(candidate, isNounCandidate)|
    ensures forall k :: |old(list.words)| <= k < |list.words| ==>
      list.words[k].State() == Parse(candidate, isNounCandidate)[k - |old(list.words)|]
    ensures AllLeaves(Parse(candidate, isNounCandidate), candidate)
    ensures Holds(Parse(candidate, isNounCandidate), candidate, true)
  {
    ParseInto(candidate, isNounCandidate, list);
    ParseLeaves(candidate, isNounCandidate);
    ParseHoldsWord(candidate, isNounCandidate);
  }

  /** The two searches of parseComplexWord, from a new candidate; the
      objects added hold the states Parse gives, in order. */
  method ParseInto(candidate: string, isNounCandidate: bool, list: ComplexWordList)
    requires list.Valid()
    modifies list
    ensures list.Valid() && list.found == old(list.found) + Parse(candidate, isNounCandidate)
    ensures old(list.words) <= list.words
    ensures forall w :: w in list.words ==> w in old(list.words) || fresh(w)
    ensures |list.words| == |old(list.words)| + |Parse(candidate, isNounCandidate)|
    ensures forall k :: |old(list.words)| <= k < |list.words| ==>
      list.words[k].State() == Parse(candidate, isNounCandidate)[k - |old(list.words)|]
  {
    ParseSearches(candidate, isNounCandidate, list);
  }

  /** The searches themselves. */
  method ParseSearches(candidate: string, isNounCandidate: bool, list: ComplexWordList)
    requires list.Valid()
    modifies list
    ensures list.Valid() && list.found == old(list.found) + Parse(candidate, isNounCandidate)
    ensures old(list.words) <= list.words
    ensures forall w :: w in list.words ==> w in old(list.words) || fresh(w)
  {
    ghost var f0 := list.found;
    var complexWord := new ComplexWord(candidate, isNounCandidate);
    ghost var s := Initial(candidate, isNounCandidate);
    InitialReady(candidate, isNounCandidate);
    ghost var i := FirstStart(candidate, VerbPrefixes);
    if !isNounCandidate {
      var strippedPrefixComplexWord := complexWord.StripPrefix();
      if strippedPrefixComplexWord != null {
        PrefixReady(s, i);
        StripSuffix(strippedPrefixComplexWord, list, PrefixStripped(s, i));
      }
    }
    ghost var stripped := if !isNounCandidate && i != 0 then Search(PrefixStripped(s, i)) else [];
    assert list.found == f0 + stripped;
    StripSuffix(complexWord, list, s);
    assert Parse(candidate, isNounCandidate) == stripped + Search(s);
    Assoc(f0, stripped, Search(s));
  }

  /** The search from one candidate, whose state is `s`: a finished
      candidate is added and may be continued in another reading;
      otherwise its current level is examined. The objects added are new
      or the candidate itself. */
  method StripSuffix(complexWord: ComplexWord, list: ComplexWordList, ghost s: WordState)
    requires complexWord.State() == s && Ready(s) && list.Valid() && complexWord !in list.words
    modifies complexWord, list
    ensures list.Valid() && list.found == old(list.found) + Search(s)
    ensures old(list.words) <= list.words
    ensures forall w :: w in list.words ==> w in old(list.words) || fresh(w) || w == complexWord
    decreases Height(s), 4
  {
    if complexWord.HasNoMoreSuffixes() {
      StripFinished(complexWord, list, s);
    } else {
      StripLevel(complexWord, list, s);
    }
  }

  /** A finished candidate is added, then continued in its other reading,
      if any. */
  method StripFinished(complexWord: ComplexWord, list: ComplexWordList, ghost s: WordState)
    requires complexWord.State() == s && Ready(s) && s.level == 0 && list.Valid()
    requires complexWord !in list.words
    modifies complexWord, list
    ensures list.Valid() && list.found == old(list.found) + Finished(s)
    ensures old(list.words) <= list.words
    ensures forall w :: w in list.words ==> w in old(list.words) || fresh(w) || w == complexWord
    decreases Height(s), 3
  {
    ghost var f0 := list.found;
    LeafReady(s);
    ghost var leaf := NumbersDetected(s);
    complexWord.AddSelf(list);
    assert complexWord.State() == leaf && list.found == f0 + [leaf];
    StripContinued(complexWord, list, leaf);
    Assoc(f0, [leaf], Continued(leaf));
  }

  /** After a finished candidate: a noun is searched again as a verb if it
      has a verb root, a bare verb as an adjectival verb if it ends in a
      type 5 noun suffix. */
  method StripContinued(complexWord: ComplexWord, list: ComplexWordList, ghost leaf: WordState)
    requires complexWord.State() == leaf && leaf.Valid() && leaf.level == 0 && list.Valid()
    modifies list
    ensures list.Valid() && list.found == old(list.found) + Continued(leaf)
    ensures old(list.words) <= list.words
    ensures forall w :: w in list.words ==> w in old(list.words) || fresh(w)
    decreases Height(leaf), 2
  {
    if complexWord.isNounCandidate {
      StripVerbRoot(complexWord, list, leaf);
    } else {
      StripAdjectivalVerb(complexWord, list, leaf);
    }
  }

  /** A noun is searched again as a verb, if it has a verb root. */
  method StripVerbRoot(complexWord: ComplexWord, list: ComplexWordList, ghost leaf: WordState)
    requires complexWord.State() == leaf && leaf.Valid() && leaf.level == 0 && leaf.isNoun
    requires list.Valid()
    modifies list
    ensures list.Valid() && list.found == old(list.found) + Continued(leaf)
    ensures old(list.words) <= list.words
    ensures forall w :: w in list.words ==> w in old(list.words) || fresh(w)
    decreases Height(leaf), 1
  {
    var verb := complexWord.GetVerbRootIfNoun();
    if verb != null {
      VerbRootReady(leaf);
      StripSuffix(verb, list, VerbRoot(leaf));
    }
  }

  /** A bare verb ending in a type 5 noun suffix is searched again as an
      adjectival verb. */
  method StripAdjectivalVerb(complexWord: ComplexWord, list: ComplexWordList, ghost leaf: WordState)
    requires complexWord.State() == leaf && leaf.Valid() && leaf.level == 0 && !leaf.isNoun
    requires list.Valid()
    modifies list
    ensures list.Valid() && list.found == old(list.found) + Continued(leaf)
    ensures old(list.words) <= list.words
    ensures forall w :: w in list.words ==> w in old(list.words) || fresh(w)
    decreases Height(leaf), 1
  {
    var bare := complexWord.IsBareWord();
    if !bare {
      return;
    }
    var adjective := complexWord.GetAdjectivalVerbWithType5NounSuffix();
    if adjective != null {
      StripAdjectival(adjective, list, leaf, FirstEnding(leaf.unparsed, NounType5, false));
    }
  }

  /** The search of an adjectival verb: first its branch without a
      trailing rover, if it has one, then the verb itself. */
  method StripAdjectival(adjective: ComplexWord, list: ComplexWordList, ghost leaf: WordState, ghost k: nat)
    requires leaf.Valid() && leaf.level == 0 && !leaf.isNoun && leaf.Bare()
    requires k == FirstEnding(leaf.unparsed, NounType5, false) && k != 0
    requires adjective.State() == Adjectival(leaf, k)
    requires list.Valid() && adjective !in list.words
    modifies adjective, list
    ensures list.Valid() && list.found == old(list.found) + Continued(leaf)
    ensures old(list.words) <= list.words
    ensures forall w :: w in list.words ==> w in old(list.words) || fresh(w) || w == adjective
    decreases Height(leaf), 0
  {
    AdjectivalReady(leaf, k);
    ghost var f0 := list.found;
    ghost var a := Adjectival(leaf, k);
    ghost var roverBranch: seq<WordState> := [];
    var adjectivalVerb := adjective.unparsedPart;
    if EndsWith(adjectivalVerb, "be'") || EndsWith(adjectivalVerb, "qu'") || EndsWith(adjectivalVerb, "Ha'") {
      var anotherComplexWord := AdjectivalRoverBranch(adjective);
      StripSuffix(anotherComplexWord, list, AdjectivalRoverStripped(a));
      roverBranch := Search(AdjectivalRoverStripped(a));
    }
    assert list.found == f0 + roverBranch;
    StripSuffix(adjective, list, a);
    assert Continued(leaf) == roverBranch + Search(a);
    Assoc(f0, roverBranch, Search(a));
  }

  /** One level of a candidate: the {-'oy} branch is searched, then the
      branch of the level and the candidate itself a level further in. */
  method StripLevel(complexWord: ComplexWord, list: ComplexWordList, ghost s: WordState)
    requires complexWord.State() == s && Ready(s) && s.level > 0 && list.Valid()
    requires complexWord !in list.words
    modifies complexWord, list
    ensures list.Valid() && list.found == old(list.found) + LevelSearch(s)
    ensures old(list.words) <= list.words
    ensures forall w :: w in list.words ==> w in old(list.words) || fresh(w) || w == complexWord
    decreases Height(s), 3
  {
    ghost var f0 := list.found;
    StepReady(s);
    StripApostropheOyBranch(complexWord, list, s);
    assert list.found == f0 + OyBranch(s);
    StripBranchAndParent(complexWord, list, s);
    LevelSearchParts(s);
    Assoc(f0, OyBranch(s), StepSearch(s));
  }

  /** The branch of the level is searched, then the candidate itself a
      level further in. */
  method StripBranchAndParent(complexWord: ComplexWord, list: ComplexWordList, ghost s: WordState)
    requires complexWord.State() == s && Ready(s) && s.level > 0 && list.Valid()
    requires complexWord !in list.words
    modifies complexWord, list
    ensures list.Valid() && list.found == old(list.found) + StepSearch(s)
    ensures old(list.words) <= list.words
    ensures forall w :: w in list.words ==> w in old(list.words) || fresh(w) || w == complexWord
    decreases Height(s), 2
  {
    ghost var f0 := list.found;
    StepReady(s);
    ghost var step := BranchStep(s);
    var strippedSuffixComplexWord := complexWord.StripSuffixAndBranch();
    ghost var branched: seq<WordState> := [];
    if strippedSuffixComplexWord != null {
      StripSuffix(strippedSuffixComplexWord, list, step.branch.value);
      branched := Search(step.branch.value);
    }
    assert list.found == f0 + branched;
    StripSuffix(complexWord, list, step.parent);
    Assoc(f0, branched, Search(step.parent));
  }

  /** The {-'oy} branch of a noun at its last level, if it has one. */
  method StripApostropheOyBranch(complexWord: ComplexWord, list: ComplexWordList, ghost s: WordState)
    requires complexWord.State() == s && Ready(s) && list.Valid()
    modifies list
    ensures list.Valid() && list.found == old(list.found) + OyBranch(s)
    ensures old(list.words) <= list.words
    ensures forall w :: w in list.words ==> w in old(list.words) || fresh(w)
    decreases Height(s), 2
  {
    var apostropheOyComplexWord := complexWord.MaybeStripApostropheOy();
    if apostropheOyComplexWord != null {
      OyReady(s);
      StripSuffix(apostropheOyComplexWord, list, ApostropheOyStripped(s));
    }
  }
}
