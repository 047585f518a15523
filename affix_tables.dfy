/** The fixed affix tables of the Klingon morphological analyzer, and the
    function that reassembles a surface word from a choice of one entry per
    table. Index 0 of every table is the empty string: "no affix here". */
module AffixTables {
  import opened Strings

  // The noun suffixes, types 1 to 5.
  const NounType1: seq<string> := ["", "'a'", "Hom", "oy"]
  const NounType2: seq<string> := ["", "pu'", "Du'", "mey"]
  const NounType3: seq<string> := ["", "qoq", "Hey", "na'"]
  const NounType4: seq<string> :=
    ["", "wIj", "wI'", "maj", "ma'", "lIj", "lI'", "raj", "ra'", "Daj", "chaj", "vam", "vetlh"]
  const NounType5: seq<string> := ["", "Daq", "vo'", "mo'", "vaD", "'e'"]
  const NounSuffixTables: seq<seq<string>> := [NounType1, NounType2, NounType3, NounType4, NounType5]

  /** The index of "oy" in the type 1 noun suffixes. */
  const OyIndex := 3

  // The verb prefixes.
  const VerbPrefixes: seq<string> := [
    "", "bI", "bo", "che", "cho", "Da", "DI", "Du", "gho", "HI", "jI", "ju", "lI", "lu", "ma",
    "mu", "nI", "nu", "pe", "pI", "qa", "re", "Sa", "Su", "tI", "tu", "vI", "wI", "yI"
  ]

  // The verb suffixes, innermost first: {-Ha'}, types 1 to 8, {-Qo'}, type 9.
  const VerbUndo: seq<string> := ["", "Ha'"]
  const VerbType1: seq<string> := ["", "'egh", "chuq"]
  const VerbType2: seq<string> := ["", "nIS", "qang", "rup", "beH", "vIp"]
  const VerbType3: seq<string> := ["", "choH", "qa'"]
  const VerbType4: seq<string> := ["", "moH"]
  const VerbType5: seq<string> := ["", "lu'", "laH", "luH", "la'"]
  const VerbType6: seq<string> := ["", "chu'", "bej", "ba'", "law'"]
  const VerbType7: seq<string> := ["", "pu'", "ta'", "taH", "lI'"]
  const VerbType8: seq<string> := ["", "neS"]
  const VerbRefusal: seq<string> := ["", "Qo'"]
  const VerbType9: seq<string> :=
    ["", "DI'", "chugh", "pa'", "vIS", "mo'", "bogh", "meH", "'a'", "jaj", "wI'", "ghach"]
  const VerbSuffixTables: seq<seq<string>> := [
    VerbUndo, VerbType1, VerbType2, VerbType3, VerbType4, VerbType5,
    VerbType6, VerbType7, VerbType8, VerbRefusal, VerbType9
  ]

  // Number parts. {pagh} is deliberately not a digit.
  const NumberDigits: seq<string> :=
    ["", "wa'", "cha'", "wej", "loS", "vagh", "jav", "Soch", "chorgh", "Hut"]
  const NumberModifiers: seq<string> :=
    ["", "maH", "vatlh", "SaD", "SanID", "netlh", "bIp", "'uy'", "Saghan"]

  /** The number of noun suffix levels and of verb suffix levels. */
  const NounLevels := 5
  const VerbLevels := 11

  // Rover positions that are not a suffix level.
  const RoverNotYetFound := -1
  const IgnoreThisRover := -2

  const Negation := "be'"
  const Emphatic := "qu'"

  /** A suffix choice: one in-range index per table. */
  predicate ChoicesInRange(choice: seq<nat>, tables: seq<seq<string>>) {
    |choice| == |tables| && forall i :: 0 <= i < |tables| ==> choice[i] < |tables[i]|
  }

  /** Index 0 of every table is the empty string, and every other entry is
      non-empty: choosing an affix always consumes text. */
  lemma TablesShape()
    ensures |NounSuffixTables| == NounLevels && |VerbSuffixTables| == VerbLevels
    ensures |VerbPrefixes| == 29 && VerbPrefixes[0] == ""
    ensures forall i :: 1 <= i < |VerbPrefixes| ==> |VerbPrefixes[i]| > 0
    ensures forall t :: 0 <= t < NounLevels ==> NounSuffixTables[t][0] == ""
    ensures forall t, i :: 0 <= t < NounLevels && 1 <= i < |NounSuffixTables[t]| ==> |NounSuffixTables[t][i]| > 0
    ensures forall t :: 0 <= t < VerbLevels ==> VerbSuffixTables[t][0] == ""
    ensures forall t, i :: 0 <= t < VerbLevels && 1 <= i < |VerbSuffixTables[t]| ==> |VerbSuffixTables[t][i]| > 0
  {
  }

  /** The rovers recorded at one suffix level, in surface order, each written
      with a leading hyphen. */
  function RoversAt(negation: int, emphatic: int, negationFirst: bool, level: int): (r: seq<string>)
    ensures (negation == level) == ("-be'" in r) && (emphatic == level) == ("-qu'" in r)
    ensures |r| == (if negation == level then 1 else 0) + (if emphatic == level then 1 else 0)
    ensures |r| == 2 ==> (r[0] == "-be'" <==> negationFirst)
  {
    if negation == level && emphatic == level then
      (if negationFirst then ["-be'", "-qu'"] else ["-qu'", "-be'"])
    else if negation == level then ["-be'"]
    else if emphatic == level then ["-qu'"]
    else []
  }

  /** The rovers of one level as they appear in the word. */
  function RoverText(negation: int, emphatic: int, negationFirst: bool, level: int): string {
    if negation == level && emphatic == level then
      (if negationFirst then Negation + Emphatic else Emphatic + Negation)
    else if negation == level then Negation
    else if emphatic == level then Emphatic
    else ""
  }

  /** The rovers listed for a level, hyphens dropped and concatenated, are
      the rovers as they appear in the word. */
  lemma RoverTextListsRovers(negation: int, emphatic: int, negationFirst: bool, level: int)
    ensures var rs := RoversAt(negation, emphatic, negationFirst, level);
      RoverText(negation, emphatic, negationFirst, level)
      == (if |rs| == 0 then "" else if |rs| == 1 then rs[0][1..] else rs[0][1..] + rs[1][1..])
  {
    assert "-be'"[1..] == Negation;
    assert "-qu'"[1..] == Emphatic;
  }

  /** The verb suffixes and rovers from level `i` outwards, as they appear in
      the word: at each level, the suffix chosen there, then the rovers
      recorded there. */
  function VerbTail(verb: seq<nat>, negation: int, emphatic: int, negationFirst: bool, i: nat): string
    requires ChoicesInRange(verb, VerbSuffixTables)
    decreases VerbLevels - i
  {
    if i >= VerbLevels then ""
    else VerbSuffixTables[i][verb[i]] + RoverText(negation, emphatic, negationFirst, i)
         + VerbTail(verb, negation, emphatic, negationFirst, i + 1)
  }

  /** The type 1 noun suffix as it appears after `before`. The analyzer
      records {-'oy} after a vowel as "oy" (index 3); ordinary "oy" is never
      stripped after a vowel, so the text before it tells the two apart. */
  function NounType1Text(before: string, k: nat): string
    requires k < |NounType1|
  {
    if k == OyIndex && EndsInVowel(before) then "'oy" else NounType1[k]
  }

  /** The noun suffixes of types 2 to 5 from table `i` outwards. */
  function NounTail(noun: seq<nat>, i: nat): string
    requires ChoicesInRange(noun, NounSuffixTables)
    decreases NounLevels - i
  {
    if i >= NounLevels then ""
    else NounSuffixTables[i][noun[i]] + NounTail(noun, i + 1)
  }

  /** The noun suffixes as they appear after `before`. */
  function NounText(before: string, noun: seq<nat>): string
    requires ChoicesInRange(noun, NounSuffixTables)
  {
    NounType1Text(before, noun[0]) + NounTail(noun, 1)
  }

  /** The part of a word before its noun suffixes: prefix, stem, then the
      verb suffixes with their rovers. */
  function Core(prefix: nat, stem: string, verb: seq<nat>, negation: int, emphatic: int,
                negationFirst: bool): string
    requires prefix < |VerbPrefixes| && ChoicesInRange(verb, VerbSuffixTables)
  {
    VerbPrefixes[prefix] + stem + VerbTail(verb, negation, emphatic, negationFirst, 0)
  }

  /** The word a decomposition stands for: prefix, stem, verb suffixes with
      their rovers, then noun suffixes. */
  function Reassemble(prefix: nat, stem: string, verb: seq<nat>, negation: int, emphatic: int,
                      negationFirst: bool, noun: seq<nat>): string
    requires prefix < |VerbPrefixes|
    requires ChoicesInRange(verb, VerbSuffixTables) && ChoicesInRange(noun, NounSuffixTables)
  {
    var core := Core(prefix, stem, verb, negation, emphatic, negationFirst);
    core + NounText(core, noun)
  }

  /** Noun tables from `i` below `j` that carry no suffix add nothing. */
  lemma {:induction false} NounTailSkipsEmpty(noun: seq<nat>, i: nat, j: nat)
    requires ChoicesInRange(noun, NounSuffixTables)
    requires i <= j <= NounLevels
    requires forall k :: i <= k < j ==> noun[k] == 0
    ensures NounTail(noun, i) == NounTail(noun, j)
    decreases j - i
  {
    if i < j {
      NounTailSkipsEmpty(noun, i + 1, j);
    }
  }

  /** The noun tail from table `i` depends only on the choices there and
      beyond. */
  lemma {:induction false} NounTailFrame(n1: seq<nat>, n2: seq<nat>, i: nat)
    requires ChoicesInRange(n1, NounSuffixTables) && ChoicesInRange(n2, NounSuffixTables)
    requires forall k :: i <= k < NounLevels ==> n1[k] == n2[k]
    ensures NounTail(n1, i) == NounTail(n2, i)
    decreases NounLevels - i
  {
    if i < NounLevels {
      NounTailFrame(n1, n2, i + 1);
    }
  }

  /** Levels below `j` that carry no suffix and no rover add nothing to the
      verb tail. */
  lemma {:induction false} VerbTailSkipsEmpty(verb: seq<nat>, negation: int, emphatic: int,
                                              negationFirst: bool, i: nat, j: nat)
    requires ChoicesInRange(verb, VerbSuffixTables)
    requires i <= j <= VerbLevels
    requires forall k :: i <= k < j ==> verb[k] == 0
    requires negation < i || negation >= j
    requires emphatic < i || emphatic >= j
    ensures VerbTail(verb, negation, emphatic, negationFirst, i)
         == VerbTail(verb, negation, emphatic, negationFirst, j)
    decreases j - i
  {
    if i < j {
      VerbTailSkipsEmpty(verb, negation, emphatic, negationFirst, i + 1, j);
    }
  }

  /** The verb tail from level `i` depends only on the choices at levels `i`
      and above and on rovers recorded there. */
  lemma {:induction false} VerbTailFrame(v1: seq<nat>, n1: int, e1: int, f1: bool,
                                         v2: seq<nat>, n2: int, e2: int, f2: bool, i: nat)
    requires ChoicesInRange(v1, VerbSuffixTables) && ChoicesInRange(v2, VerbSuffixTables)
    requires forall k :: i <= k < VerbLevels ==> v1[k] == v2[k]
    requires forall k :: i <= k < VerbLevels ==>
      RoverText(n1, e1, f1, k) == RoverText(n2, e2, f2, k)
    ensures VerbTail(v1, n1, e1, f1, i) == VerbTail(v2, n2, e2, f2, i)
    decreases VerbLevels - i
  {
    if i < VerbLevels {
      VerbTailFrame(v1, n1, e1, f1, v2, n2, e2, f2, i + 1);
    }
  }

  /** Filling level `L - 1` of an otherwise empty inner verb tail inserts
      text at the front of the tail. */
  lemma VerbTailInsert(v1: seq<nat>, n1: int, e1: int, f1: bool,
                       v2: seq<nat>, n2: int, e2: int, f2: bool, L: nat, inserted: string)
    requires ChoicesInRange(v1, VerbSuffixTables) && ChoicesInRange(v2, VerbSuffixTables)
    requires 1 <= L <= VerbLevels
    requires forall k :: 0 <= k < L - 1 ==> v1[k] == 0 && v2[k] == 0
    requires (n1 < 0 || n1 >= L - 1) && (e1 < 0 || e1 >= L - 1)
    requires (n2 < 0 || n2 >= L - 1) && (e2 < 0 || e2 >= L - 1)
    requires forall k :: L <= k < VerbLevels ==> v1[k] == v2[k]
    requires forall k :: L <= k < VerbLevels ==> RoverText(n1, e1, f1, k) == RoverText(n2, e2, f2, k)
    requires VerbSuffixTables[L - 1][v2[L - 1]] + RoverText(n2, e2, f2, L - 1)
          == inserted + VerbSuffixTables[L - 1][v1[L - 1]] + RoverText(n1, e1, f1, L - 1)
    ensures VerbTail(v2, n2, e2, f2, 0) == inserted + VerbTail(v1, n1, e1, f1, 0)
  {
    VerbTailSkipsEmpty(v1, n1, e1, f1, 0, L - 1);
    VerbTailSkipsEmpty(v2, n2, e2, f2, 0, L - 1);
    VerbTailFrame(v1, n1, e1, f1, v2, n2, e2, f2, L);
    var rest := VerbTail(v1, n1, e1, f1, L);
    var level1 := VerbSuffixTables[L - 1][v1[L - 1]] + RoverText(n1, e1, f1, L - 1);
    var level2 := VerbSuffixTables[L - 1][v2[L - 1]] + RoverText(n2, e2, f2, L - 1);
    assert VerbTail(v1, n1, e1, f1, L - 1) == level1 + rest;
    assert VerbTail(v2, n2, e2, f2, L - 1) == level2 + rest;
    var a := VerbSuffixTables[L - 1][v1[L - 1]];
    var b := RoverText(n1, e1, f1, L - 1);
    Assoc(inserted, a, b);
    Assoc(inserted, level1, rest);
  }

  /** Moving a type 1 noun suffix from the end of the stem into the type 1
      slot keeps the word, as long as the oy rule reads it back the same. */
  lemma NounType1Move(stem: string, k: nat, n1: seq<nat>, n2: seq<nat>, text: string)
    requires ChoicesInRange(n1, NounSuffixTables) && ChoicesInRange(n2, NounSuffixTables)
    requires n1[0] == 0 && 1 <= k < |NounType1| && n2 == n1[0 := k]
    requires text == NounType1Text(stem, k)
    ensures stem + NounText(stem, n2) == (stem + text) + NounText(stem + text, n1)
  {
    NounTailFrame(n1, n2, 1);
    var rest := NounTail(n1, 1);
    var empty := NounType1Text(stem + text, 0);
    assert empty == "";
    assert NounText(stem, n2) == text + rest;
    assert NounText(stem + text, n1) == empty + rest;
    EmptyLeft(empty, rest);
    Assoc(stem, text, rest);
  }

  /** The noun text of a single type 5 suffix. */
  lemma NounType5Only(stem: string, noun: seq<nat>)
    requires ChoicesInRange(noun, NounSuffixTables)
    requires noun[0] == 0 && noun[1] == 0 && noun[2] == 0 && noun[3] == 0
    ensures NounText(stem, noun) == NounType5[noun[4]]
  {
    NounTailSkipsEmpty(noun, 1, 4);
    assert NounTail(noun, 4) == NounType5[noun[4]] + "";
    assert NounType1Text(stem, 0) == "";
    EmptyLeft(NounType1Text(stem, 0), NounType5[noun[4]]);
  }
}
