/** What a finished candidate says about its parts: number detection on a
    noun, the dictionary names of its affixes, and attaching affixes by name
    (the inverse direction, used when a known compound is decomposed). */
module WordParts {
  import opened Strings
  import opened AffixTables
  import opened WordStates

  // ---------------------------------------------------------------------
  // Number detection.

  /** The digit (index 1 onwards) equal to `root`, or 0. {pagh} is not a
      digit here. */
  function DigitOf(root: string): (d: nat)
    ensures d < |NumberDigits|
    ensures d != 0 ==> root == NumberDigits[d]
    ensures d == 0 ==> forall j :: 1 <= j < |NumberDigits| ==> root != NumberDigits[j]
  {
    EntryFrom(NumberDigits, root, 1)
  }

  /** The first index from `k` on at which `table` holds `x`, or 0. */
  function EntryFrom(table: seq<string>, x: string, k: nat): (d: nat)
    requires 1 <= k
    ensures d == 0 || k <= d < |table|
    ensures d != 0 ==> x == table[d]
    ensures forall j :: k <= j < |table| && (d == 0 || j < d) ==> x != table[j]
    decreases |table| - k
  {
    if k >= |table| then 0
    else if x == table[k] then k
    else EntryFrom(table, x, k + 1)
  }

  /** The number fields of a candidate. */
  datatype NumberFields = NumberFields(digit: nat, modifier: nat, suffix: string, like: bool)

  const NoNumber := NumberFields(0, 0, "", false)

  /** Whether a stem ends in a number suffix: {-DIch} always, {-logh} only
      on a word with no affix. */
  predicate HasNumberSuffix(stem: string, bare: bool) {
    EndsWith(stem, "DIch") || (bare && EndsWith(stem, "logh"))
  }

  /** The stem without its number suffix. */
  function NumberBase(stem: string, bare: bool): string {
    if HasNumberSuffix(stem, bare) then stem[..|stem| - 4] else stem
  }

  /** The number root: the number base without its first power-of-ten
      modifier in table order, if it ends in one. */
  function NumberRootOf(stem: string, bare: bool): string {
    var base := NumberBase(stem, bare);
    var m := FirstEnding(base, NumberModifiers, false);
    if m == 0 then base else DropSuffix(base, NumberModifiers[m])
  }

  /** Number detection on a noun stem: the number suffix split off the end,
      then one modifier, then a digit that must be the whole remaining root;
      a digit alone is not a number word, and {pagh}, {Hoch} and {'ar} with
      a number suffix are. Fields not found keep their value in `before`. */
  function DetectNumber(stem: string, bare: bool, before: NumberFields): (r: NumberFields)
    requires before.digit < |NumberDigits| && before.modifier < |NumberModifiers|
    ensures r.digit < |NumberDigits| && r.modifier < |NumberModifiers|
  {
    var suffix := if HasNumberSuffix(stem, bare) then stem[|stem| - 4..] else before.suffix;
    var m := FirstEnding(NumberBase(stem, bare), NumberModifiers, false);
    var modifier := if m == 0 then before.modifier else m;
    var root := NumberRootOf(stem, bare);
    var d := DigitOf(root);
    var digit := if d == 0 then before.digit else d;
    var like := if d == 0 then before.like else true;
    var cleared := modifier == 0 && suffix == "";
    var special := suffix != "" && (root == "pagh" || root == "Hoch" || root == "'ar");
    NumberFields(if cleared then 0 else digit, modifier, suffix, (!cleared && like) || special)
  }

  /** The number fields a finished candidate gets: those detected on the
      stem of a noun; a verb is left alone. */
  function NumbersDetected(s: WordState): WordState
    requires s.numberDigit < |NumberDigits| && s.numberModifier < |NumberModifiers|
  {
    if !s.isNoun then s
    else
      var f := DetectNumber(s.unparsed, s.Bare(),
                            NumberFields(s.numberDigit, s.numberModifier, s.numberSuffix, s.numberLike));
      s.(numberDigit := f.digit, numberModifier := f.modifier, numberSuffix := f.suffix, numberLike := f.like)
  }

  /** The number fields detected on a noun, written into its state. */
  lemma NumbersDetectedBy(s: WordState, f: NumberFields)
    requires s.isNoun && s.numberDigit < |NumberDigits| && s.numberModifier < |NumberModifiers|
    requires f == DetectNumber(s.unparsed, s.Bare(),
                               NumberFields(s.numberDigit, s.numberModifier, s.numberSuffix, s.numberLike))
    ensures NumbersDetected(s) ==
      s.(numberDigit := f.digit, numberModifier := f.modifier, numberSuffix := f.suffix, numberLike := f.like)
  {
  }

  /** Number detection changes only the number fields: the candidate keeps
      its stem, its affixes and the word it stands for. */
  lemma NumbersDetectedKeeps(s: WordState)
    requires s.Valid()
    ensures var r := NumbersDetected(s);
      r.Valid() && r.Surface() == s.Surface() &&
      r == s.(numberDigit := r.numberDigit, numberModifier := r.numberModifier,
              numberSuffix := r.numberSuffix, numberLike := r.numberLike) &&
      (!s.isNoun ==> r == s)
  {
    var r := NumbersDetected(s);
    assert CoreOf(r) == CoreOf(s);
    SurfaceFromCore(s, r);
  }

  /** Distinct table entries of the number tables do not end in each other,
      and no digit ends in a modifier. */
  lemma ModifiersApart(a: nat, b: nat)
    requires 1 <= a < |NumberModifiers| && 1 <= b < |NumberModifiers| && a != b
    ensures !EndsWith(NumberModifiers[a], NumberModifiers[b])
  {
  }

  lemma DigitsAvoidModifiers(a: nat, b: nat)
    requires 1 <= a < |NumberDigits| && 1 <= b < |NumberModifiers|
    ensures !EndsWith(NumberDigits[a], NumberModifiers[b])
  {
  }

  lemma ModifiersAvoidNumberSuffixes(b: nat)
    requires 1 <= b < |NumberModifiers|
    ensures !EndsWith(NumberModifiers[b], "DIch") && !EndsWith("DIch", NumberModifiers[b])
    ensures !EndsWith(NumberModifiers[b], "logh") && !EndsWith("logh", NumberModifiers[b])
  {
  }

  /** The first modifier, in table order, that a digit followed by
      modifier `m` ends in is `m` itself (none, for `m` = 0). */
  lemma ModifierFound(j: nat, m: nat)
    requires 1 <= j < |NumberDigits| && m < |NumberModifiers|
    ensures FirstEnding(NumberDigits[j] + NumberModifiers[m], NumberModifiers, false) == m
  {
    var x := NumberDigits[j] + NumberModifiers[m];
    forall b | 1 <= b < |NumberModifiers| && b != m
      ensures !EndsWith(x, NumberModifiers[b])
    {
      ModifierMissing(j, m, b);
    }
    if m != 0 {
      assert x[|x| - |NumberModifiers[m]|..] == NumberModifiers[m];
    }
  }

  /** A digit followed by modifier `m` ends in no other modifier. */
  lemma ModifierMissing(j: nat, m: nat, b: nat)
    requires 1 <= j < |NumberDigits| && m < |NumberModifiers|
    requires 1 <= b < |NumberModifiers| && b != m
    ensures !EndsWith(NumberDigits[j] + NumberModifiers[m], NumberModifiers[b])
  {
    var x := NumberDigits[j] + NumberModifiers[m];
    EndsWithSplit(NumberDigits[j], NumberModifiers[m], NumberModifiers[b]);
    if m == 0 {
      assert x == NumberDigits[j];
      DigitsAvoidModifiers(j, b);
    } else if |NumberModifiers[b]| <= |NumberModifiers[m]| {
      ModifiersApart(m, b);
    } else {
      ModifiersApart(b, m);
    }
  }

  /** Number detection reads back a number word built from its parts: a
      digit, an optional modifier and an optional number suffix ({-logh}
      only on a word with no affix), not the digit alone. */
  lemma NumberRoundTrip(j: nat, m: nat, suffix: string, bare: bool)
    requires 1 <= j < |NumberDigits| && m < |NumberModifiers|
    requires suffix == "DIch" || (suffix == "logh" && bare) || (suffix == "" && m != 0)
    ensures DetectNumber(NumberDigits[j] + NumberModifiers[m] + suffix, bare, NoNumber)
         == NumberFields(j, m, suffix, true)
  {
    var x := NumberDigits[j] + NumberModifiers[m];
    var u := x + suffix;
    NumberSuffixSplit(j, m, suffix, bare);
    ModifierFound(j, m);
    assert NumberRootOf(u, bare) == NumberDigits[j] by {
      if m != 0 {
        var r := DropSuffix(x, NumberModifiers[m]);
        assert r == x[..|NumberDigits[j]|];
      }
    }
    DigitOfDigit(j);
  }

  /** Each digit is read back as its own index. */
  lemma DigitOfDigit(j: nat)
    requires 1 <= j < |NumberDigits|
    ensures DigitOf(NumberDigits[j]) == j
  {
    var d := DigitOf(NumberDigits[j]);
    assert d != 0;
    DigitsDistinct(d, j);
  }

  /** The digits are pairwise distinct. */
  lemma DigitsDistinct(a: nat, b: nat)
    requires a < |NumberDigits| && b < |NumberDigits|
    ensures NumberDigits[a] == NumberDigits[b] ==> a == b
  {
  }

  /** The number suffix of a number word built from its parts is the one
      it was built with, and the number base is what precedes it. */
  lemma NumberSuffixSplit(j: nat, m: nat, suffix: string, bare: bool)
    requires 1 <= j < |NumberDigits| && m < |NumberModifiers|
    requires suffix == "DIch" || (suffix == "logh" && bare) || (suffix == "" && m != 0)
    ensures var u := NumberDigits[j] + NumberModifiers[m] + suffix;
      NumberBase(u, bare) == NumberDigits[j] + NumberModifiers[m] &&
      (HasNumberSuffix(u, bare) <==> suffix != "") &&
      (suffix != "" ==> u[|u| - 4..] == suffix)
  {
    var x := NumberDigits[j] + NumberModifiers[m];
    var u := x + suffix;
    if suffix == "" {
      assert u == x;
      ModifiersAvoidNumberSuffixes(m);
      EndsWithSplit(NumberDigits[j], NumberModifiers[m], "DIch");
      EndsWithSplit(NumberDigits[j], NumberModifiers[m], "logh");
      assert !HasNumberSuffix(u, bare);
    } else {
      assert u[|u| - 4..] == suffix;
      assert HasNumberSuffix(u, bare);
      assert u[..|u| - 4] == x;
    }
  }

  /** Conversely, a stem is marked number-like only if it is a digit, or
      {pagh}, {Hoch} or {'ar} with a number suffix, followed by the modifier
      and the suffix recorded; and a stem with neither a modifier nor a
      suffix is not a number. */
  lemma NumberLikeIsNumberWord(stem: string, bare: bool)
    ensures var r := DetectNumber(stem, bare, NoNumber);
      r.like ==>
        (r.modifier != 0 || r.suffix != "") &&
        stem == NumberRootOf(stem, bare) + NumberModifiers[r.modifier] + r.suffix &&
        ((r.digit != 0 && NumberRootOf(stem, bare) == NumberDigits[r.digit]) ||
         (r.suffix != "" && (NumberRootOf(stem, bare) == "pagh" || NumberRootOf(stem, bare) == "Hoch" ||
                             NumberRootOf(stem, bare) == "'ar")))
    ensures var r := DetectNumber(stem, bare, NoNumber);
      r.modifier == 0 && r.suffix == "" ==> !r.like && r.digit == 0
  {
    NumberSplit(stem, bare);
  }

  /** The stem is its number root, the modifier detected and the number
      suffix detected, in that order. */
  lemma NumberSplit(stem: string, bare: bool)
    ensures var r := DetectNumber(stem, bare, NoNumber);
      stem == NumberRootOf(stem, bare) + NumberModifiers[r.modifier] + r.suffix
  {
    var base := NumberBase(stem, bare);
    var m := FirstEnding(base, NumberModifiers, false);
    var suffix := if HasNumberSuffix(stem, bare) then stem[|stem| - 4..] else "";
    assert base + suffix == stem;
    assert NumberRootOf(stem, bare) + NumberModifiers[m] == base by {
      if m == 0 {
        assert NumberModifiers[0] == "";
      }
    }
  }

  // ---------------------------------------------------------------------
  // Affix names, and attaching affixes by name.

  /** The dictionary name of the choice at table `i`: "" for none, else the
      affix with a leading hyphen. */
  function SlotName(tables: seq<seq<string>>, i: nat, choice: nat): string
    requires i < |tables| && choice < |tables[i]|
  {
    (if choice == 0 then "" else "-") + tables[i][choice]
  }

  /** The names of all choices, one per table. */
  function SlotNames(choice: seq<nat>, tables: seq<seq<string>>): (names: seq<string>)
    requires ChoicesInRange(choice, tables)
    ensures |names| == |tables|
  {
    seq(|tables|, i requires 0 <= i < |tables| => SlotName(tables, i, choice[i]))
  }

  /** A table entry: table number and index within it; index 0 is "none". */
  datatype Slot = Slot(table: nat, index: nat)

  /** The first entry, table by table and from index 1 within a table,
      whose hyphenated name is `name`; index 0 if there is none. */
  function FindName(tables: seq<seq<string>>, name: string): (r: Slot)
    ensures r.index == 0 ==> r == Slot(0, 0)
    ensures r.index != 0 ==>
      r.table < |tables| && r.index < |tables[r.table]| && "-" + tables[r.table][r.index] == name
    ensures forall i, j ::
      (0 <= i < |tables| && 1 <= j < |tables[i]| &&
       (r.index == 0 || i < r.table || (i == r.table && j < r.index))) ==> "-" + tables[i][j] != name
  {
    FindNameFrom(tables, name, 0)
  }

  function FindNameFrom(tables: seq<seq<string>>, name: string, i: nat): (r: Slot)
    ensures r.index == 0 ==> r == Slot(0, 0)
    ensures r.index != 0 ==>
      i <= r.table < |tables| && r.index < |tables[r.table]| && "-" + tables[r.table][r.index] == name
    ensures forall t, j ::
      (i <= t < |tables| && 1 <= j < |tables[t]| &&
       (r.index == 0 || t < r.table || (t == r.table && j < r.index))) ==> "-" + tables[t][j] != name
    decreases |tables| - i
  {
    if i >= |tables| then Slot(0, 0)
    else
      var j := FindInTable(tables[i], name, 1);
      if j != 0 then Slot(i, j) else FindNameFrom(tables, name, i + 1)
  }

  function FindInTable(table: seq<string>, name: string, k: nat): (j: nat)
    requires 1 <= k
    ensures j == 0 || k <= j < |table|
    ensures j != 0 ==> "-" + table[j] == name
    ensures forall l :: k <= l < |table| && (j == 0 || l < j) ==> "-" + table[l] != name
    decreases |table| - k
  {
    if k >= |table| then 0
    else if "-" + table[k] == name then k
    else FindInTable(table, name, k + 1)
  }

  /** The first entry of `table` (index 1 onwards) whose name, with a
      trailing hyphen, is `name`; 0 if there is none. */
  function PrefixNamed(table: seq<string>, name: string): (i: nat)
    ensures i == 0 || 1 <= i < |table|
    ensures i != 0 ==> table[i] + "-" == name
    ensures forall j :: 1 <= j < |table| && (i == 0 || j < i) ==> table[j] + "-" != name
  {
    PrefixNamedFrom(table, name, 1)
  }

  function PrefixNamedFrom(table: seq<string>, name: string, k: nat): (i: nat)
    requires 1 <= k
    ensures i == 0 || k <= i < |table|
    ensures i != 0 ==> table[i] + "-" == name
    ensures forall j :: k <= j < |table| && (i == 0 || j < i) ==> table[j] + "-" != name
    decreases |table| - k
  {
    if k >= |table| then 0
    else if name == table[k] + "-" then k
    else PrefixNamedFrom(table, name, k + 1)
  }

  /** A verb takes the prefix named `name`, if there is one; a noun takes
      none. */
  function PrefixAttached(s: WordState, name: string): (r: WordState)
    ensures r == s || (!s.isNoun && r == s.(prefix := r.prefix) && r.prefix != 0)
  {
    var i := PrefixNamed(VerbPrefixes, name);
    if s.isNoun || i == 0 then s else s.(prefix := i)
  }

  /** Attaching the name a candidate gives its prefix to any verb gives that
      verb the same prefix name. */
  lemma PrefixNameRoundTrip(s: WordState, t: WordState)
    requires s.prefix < |VerbPrefixes| && s.prefix != 0 && !t.isNoun
    ensures PrefixAttached(t, s.GetVerbPrefix()).GetVerbPrefix() == s.GetVerbPrefix()
  {
    var i := PrefixNamed(VerbPrefixes, s.GetVerbPrefix());
    assert i != 0;
  }

  /** A state after an affix was attached, and the verb suffix level
      reported. */
  datatype Attached = Attached(state: WordState, level: int)

  /** Attaching a suffix by name: {-DIch} and {-logh} mark a number; a noun
      suffix name sets its slot; for a verb suffix, a rover is recorded at
      the current level and placed after any rover already there, and any
      other name sets its slot and becomes the current level. An unknown
      name changes nothing. */
  function SuffixAttached(s: WordState, suffix: string, isNounSuffix: bool, verbLevel: int): (a: Attached)
    requires |s.noun| == NounLevels && |s.verb| == VerbLevels
  {
    if suffix == "-DIch" || suffix == "-logh" then
      Attached(s.(numberLike := true, numberSuffix := suffix[1..]), verbLevel)
    else if isNounSuffix then
      var slot := FindName(NounSuffixTables, suffix);
      if slot.index == 0 then Attached(s, verbLevel)
      else Attached(s.(noun := s.noun[slot.table := slot.index]), verbLevel)
    else if suffix == "-be'" then
      Attached(s.(negation := verbLevel,
                  negationFirst := if s.emphatic == verbLevel then false else s.negationFirst), verbLevel)
    else if suffix == "-qu'" then
      Attached(s.(emphatic := verbLevel,
                  negationFirst := if s.negation == verbLevel then true else s.negationFirst), verbLevel)
    else
      var slot := FindName(VerbSuffixTables, suffix);
      if slot.index == 0 then Attached(s, verbLevel)
      else Attached(s.(verb := s.verb[slot.table := slot.index]), slot.table)
  }

  /** No affix in the tables is named like a number suffix or a rover. */
  lemma NounSuffixesNotSpecial(i: nat, j: nat)
    requires i < NounLevels && 1 <= j < |NounSuffixTables[i]|
    ensures NounSuffixTables[i][j] != "DIch" && NounSuffixTables[i][j] != "logh"
  {
  }

  lemma VerbSuffixesNotSpecial(i: nat, j: nat)
    requires i < VerbLevels && 1 <= j < |VerbSuffixTables[i]|
    ensures VerbSuffixTables[i][j] != "DIch" && VerbSuffixTables[i][j] != "logh"
    ensures VerbSuffixTables[i][j] != Negation && VerbSuffixTables[i][j] != Emphatic
  {
  }

  /** Attaching the name of a noun suffix sets one noun slot, to a suffix of
      that name, and leaves everything else and the level alone. */
  lemma NounSuffixNameRoundTrip(s: WordState, i: nat, j: nat, verbLevel: int)
    requires ChoicesInRange(s.noun, NounSuffixTables) && |s.verb| == VerbLevels
    requires i < NounLevels && 1 <= j < |NounSuffixTables[i]|
    ensures var a := SuffixAttached(s, SlotName(NounSuffixTables, i, j), true, verbLevel);
      a.level == verbLevel &&
      exists k :: 0 <= k < NounLevels && a.state == s.(noun := s.noun[k := a.state.noun[k]]) &&
        a.state.noun[k] < |NounSuffixTables[k]| &&
        SlotName(NounSuffixTables, k, a.state.noun[k]) == SlotName(NounSuffixTables, i, j)
  {
    NounSuffixesNotSpecial(i, j);
    var name := SlotName(NounSuffixTables, i, j);
    assert name == "-" + NounSuffixTables[i][j];
    assert name != "-DIch" && name != "-logh" by {
      assert name[1..] == NounSuffixTables[i][j];
    }
    var slot := FindName(NounSuffixTables, name);
    assert slot.index != 0;
    var a := SuffixAttached(s, name, true, verbLevel);
    assert a.state == s.(noun := s.noun[slot.table := slot.index]);
    assert a.state.noun[slot.table] == slot.index;
  }

  /** Attaching the name of a verb suffix sets one verb slot, to a suffix of
      that name, and reports that slot as the new level. */
  lemma VerbSuffixNameRoundTrip(s: WordState, i: nat, j: nat, verbLevel: int)
    requires ChoicesInRange(s.verb, VerbSuffixTables) && |s.noun| == NounLevels
    requires i < VerbLevels && 1 <= j < |VerbSuffixTables[i]|
    ensures var a := SuffixAttached(s, SlotName(VerbSuffixTables, i, j), false, verbLevel);
      0 <= a.level < VerbLevels &&
      a.state == s.(verb := s.verb[a.level := a.state.verb[a.level]]) &&
      a.state.verb[a.level] < |VerbSuffixTables[a.level]| &&
      SlotName(VerbSuffixTables, a.level, a.state.verb[a.level]) == SlotName(VerbSuffixTables, i, j)
  {
    VerbSuffixesNotSpecial(i, j);
    var name := SlotName(VerbSuffixTables, i, j);
    assert name == "-" + VerbSuffixTables[i][j];
    assert name != "-DIch" && name != "-logh" && name != "-be'" && name != "-qu'" by {
      assert name[1..] == VerbSuffixTables[i][j];
    }
    var slot := FindName(VerbSuffixTables, name);
    assert slot.index != 0;
  }

  /** A rover attached at a level is listed at that level, after the other
      rover if that one is already there: the rovers are listed in the order
      they were attached. */
  lemma RoverNameAttachedLast(s: WordState, rover: string, verbLevel: int)
    requires |s.noun| == NounLevels && |s.verb| == VerbLevels
    requires rover == "-be'" || rover == "-qu'"
    ensures var a := SuffixAttached(s, rover, false, verbLevel);
      var rs := RoversAt(a.state.negation, a.state.emphatic, a.state.negationFirst, verbLevel);
      var other := if rover == "-be'" then "-qu'" else "-be'";
      a.level == verbLevel &&
      rs == (if other in RoversAt(s.negation, s.emphatic, s.negationFirst, verbLevel)
             then [other, rover] else [rover])
  {
  }

  /** Attaching {-DIch} or {-logh} marks a number with that suffix. */
  lemma NumberSuffixAttached(s: WordState, suffix: string, isNounSuffix: bool, verbLevel: int)
    requires |s.noun| == NounLevels && |s.verb| == VerbLevels
    requires suffix == "-DIch" || suffix == "-logh"
    ensures var a := SuffixAttached(s, suffix, isNounSuffix, verbLevel);
      a == Attached(s.(numberLike := true, numberSuffix := a.state.numberSuffix), verbLevel) &&
      "-" + a.state.numberSuffix == suffix
  {
    assert "-" + suffix[1..] == suffix;
  }
}
