# Klingon word analysis and dictionary queries

This project models the algorithmic core of the dictionary's content
provider (`KlingonContentProvider.java`). It has three parts.

- **The complex-word analyzer** (`ComplexWord`, `parseComplexWord`,
  `stripSuffix`). A word typed by the user is split into a verb prefix, a
  stem, verb suffixes in nine types, the rovers {-be'} and {-qu'},
  {-Ha'} and {-Qo'}, and noun suffixes in five types. Every decomposition
  the fixed affix tables allow is collected into a list of candidates.
  Each candidate yields a lookup key (`filter`), the names of its affixes,
  and number fields for number words ({wa'maH}, {cha'DIch}, ...). Its
  affixes can also be attached by name.
- **The entry decoder** (the query constructor of `Entry` and
  `processMetadata`). A query string `name:base:attr,attr,...@@components`
  is split into the entry name, the part of speech and the components.
  The base part of speech is decoded by index through its abbreviation.
  The attributes are applied left to right. The kind predicates (`isVerb`,
  `isPrefix`, ...) and the sentence-type query are read off the result.
- **The matcher** (`isSatisfiedBy`) decides whether a dictionary entry
  satisfies a query.

Modules, in dependency order:

- `Strings`: the string operations of Java the source relies on. These
  are `endsWith`, `indexOf`, `split(",")` (which drops trailing empty
  fields), the regular expression `.*[aeIou]` and `Integer.toString`.
- `AffixTables`: the prefix and suffix tables. It also holds
  `Reassemble`, which writes a decomposition back as a word.
- `WordStates`: the fields of a `ComplexWord` as a value (`WordState`).
  Each branching operation is defined here as a function on states. Each
  has a lemma proving that the branch is well formed, stands for the same
  word, has a shorter stem and is lower in the termination measure.
- `WordParts`: number detection, affix names, and attaching affixes by
  name.
- `Searches`: the whole recursive search as a ghost function (`Search`,
  `Parse`), with what it finds proved about it.
- `ComplexWords`: the imperative analyzer. `ComplexWord` is a class
  whose methods update its fields in place; each method is specified by
  the value-level transition it performs. `parseComplexWord` and
  `stripSuffix` are recursive methods. They append new candidate objects
  to a list object, which holds, in order, the states of `Parse(word)`.
- `Entries`: the metadata decoder as functions, the class `Entry` whose
  constructor and `processMetadata` write the fields in place, the kind
  predicates and the matcher.
- `LookupKeys`: where the two halves meet. It shows what the lookup key of
  a candidate decodes to and which entries it finds.

Main results:

- Every candidate the analysis adds reassembles the input word
  (`Searches.ParseLeaves`).
- The word itself, with no affix, is always among the candidates
  (`Searches.ParseHoldsWord`).
- The search terminates. Every step lowers a measure, and the methods are
  checked against it.
- The imperative analyzer appends new candidate objects to the list, and
  the object at each position holds the state the search function gives
  there. Each is a finished analysis of the word, and one is the word
  itself (`ComplexWords.ParseComplexWord`).
- Number detection reads back the number words built from their parts
  (`WordParts.NumberRoundTrip`). Conversely, only such words are marked as
  numbers (`WordParts.NumberLikeIsNumberWord`).
- Attribute decoding has these properties: flags are only ever set, the
  homophone number is only hidden, transitivity is only confirmed, and the
  last attribute that writes a field wins.
- The sentence-type query round trip holds.
- The matcher is stated as the exact conjunction of its conditions.
- The lookup key of every candidate decodes to the query the analyzer
  means (`LookupKeys.FilterDecodes`, `LookupKeys.FilterFinds`).

Some behaviour of the code worth knowing when reading the model:

- The verb prefix table has 28 named prefixes plus the empty "no prefix"
  entry.
- `stripPrefix` takes only the first prefix in table order whose removal
  leaves a non-empty stem.
- `getAdjectivalVerbWithType5NounSuffix` takes only the first type 5 noun
  suffix in table order that the verb ends in.
- The adjectival verb re-enters `stripSuffix` at level 0. There it is
  added as a finished candidate, and the search stops because it is no
  longer a bare word.

## Model

| member | source | states |
|---|---|---|
| AffixTables.TablesShape | app/src/main/java/org/tlhInganHol/android/klingonassistant/KlingonContentProvider.java:2016-2077 | 5 noun suffix tables, 11 verb suffix levels ({-Ha'}, types 1-8, {-Qo'}, type 9) and 29 prefix entries; index 0 of every table is the empty "none" entry and every other entry is non-empty |
| AffixTables.RoversAt | app/src/main/java/org/tlhInganHol/android/klingonassistant/KlingonContentProvider.java:2494-2508 | "-be'" is listed at a level exactly when the negation rover sits there, "-qu'" exactly when the emphatic one does; when both do, {-be'} is first exactly when it precedes {-qu'} in the word |
| AffixTables.RoverTextListsRovers | app/src/main/java/org/tlhInganHol/android/klingonassistant/KlingonContentProvider.java:2494-2508 | the rovers getRovers lists, without their hyphens and concatenated, are the rovers as they appear in the word at that level |
| ComplexWords.ComplexWord.constructor | app/src/main/java/org/tlhInganHol/android/klingonassistant/KlingonContentProvider.java:2109-2148 | a fresh candidate holds the whole word, every suffix level open, no prefix, suffix or rover found, homophone number -1 |
| WordStates.InitialKeeps | app/src/main/java/org/tlhInganHol/android/klingonassistant/KlingonContentProvider.java:2109-2148 | a fresh candidate is well formed, is a bare word, has no number fields, both rovers unresolved, and stands for the input word |
| ComplexWords.ComplexWord.Copy | app/src/main/java/org/tlhInganHol/android/klingonassistant/KlingonContentProvider.java:2150-2170 | the copy has every field of the original, suffix arrays included, with only the stem replaced |
| ComplexWords.ComplexWord.SetHomophoneNumber | app/src/main/java/org/tlhInganHol/android/klingonassistant/KlingonContentProvider.java:2172-2175 | only the homophone number changes |
| ComplexWords.ComplexWord.StripPrefix | app/src/main/java/org/tlhInganHol/android/klingonassistant/KlingonContentProvider.java:2178-2198 | no branch for a noun or when no prefix leaves a non-empty stem; otherwise a new candidate with the first such prefix in table order removed and recorded |
| ComplexWords.FindPrefix | app/src/main/java/org/tlhInganHol/android/klingonassistant/KlingonContentProvider.java:2184-2196 | the scan returns the first prefix from index 1 on that the stem starts with and leaves something, or 0 |
| WordStates.PrefixStrippedKeeps | app/src/main/java/org/tlhInganHol/android/klingonassistant/KlingonContentProvider.java:2178-2198 | the prefix branch is well formed, stands for the same word, has a shorter non-empty stem, records that prefix and is no longer bare |
| ComplexWords.ComplexWord.StripRovers | app/src/main/java/org/tlhInganHol/android/klingonassistant/KlingonContentProvider.java:2201-2239 | {-be'} is tried before {-qu'}; a rover at the end of a stem that is not only that rover is split off into a branch that records it after the current level, and the parent ignores that rover from then on; otherwise nothing changes and there is no branch |
| ComplexWords.ComplexWord.StripNegation | app/src/main/java/org/tlhInganHol/android/klingonassistant/KlingonContentProvider.java:2205-2220 | the parent ignores {-be'}; the branch has {-be'} removed, recorded after the current level, and ordered before a {-qu'} already there |
| ComplexWords.ComplexWord.StripEmphatic | app/src/main/java/org/tlhInganHol/android/klingonassistant/KlingonContentProvider.java:2221-2236 | the parent ignores {-qu'}; the branch has {-qu'} removed, recorded after the current level, and ordered after a {-be'} already there |
| WordStates.NegationStrippedKeeps | app/src/main/java/org/tlhInganHol/android/klingonassistant/KlingonContentProvider.java:2205-2220 | the {-be'} branch is well formed, stands for the same word, has a stem three letters shorter and non-empty, and is lower in the measure |
| WordStates.EmphaticStrippedKeeps | app/src/main/java/org/tlhInganHol/android/klingonassistant/KlingonContentProvider.java:2221-2236 | the {-qu'} branch is well formed, stands for the same word, has a stem three letters shorter and non-empty, and is lower in the measure |
| WordStates.IgnoredKeeps | app/src/main/java/org/tlhInganHol/android/klingonassistant/KlingonContentProvider.java:2210-2226 | a parent that ignores a rover keeps its stem and findings, still stands for the same word and is lower in the measure |
| WordStates.RoverStepKeeps | app/src/main/java/org/tlhInganHol/android/klingonassistant/KlingonContentProvider.java:2201-2239 | the rover step keeps the step invariant, lowers the parent when it branches, and branches exactly when one of the two rovers can be stripped |
| ComplexWords.ComplexWord.StripSuffixAndBranch | app/src/main/java/org/tlhInganHol/android/klingonassistant/KlingonContentProvider.java:2244-2312 | at level 0 nothing happens; a verb first tries its rovers; otherwise the level is consumed and the first suffix of its table that strips is split off into a branch that records it |
| ComplexWords.FindSuffix | app/src/main/java/org/tlhInganHol/android/klingonassistant/KlingonContentProvider.java:2285-2310 | the first suffix from index 1 on that the stem ends with, whose removal leaves something and that is not {-oy} after a vowel, or 0 |
| ComplexWords.ComplexWord.SplitSuffix | app/src/main/java/org/tlhInganHol/android/klingonassistant/KlingonContentProvider.java:2297-2307 | the branch has the suffix removed and its index written into the slot of the consumed level |
| WordStates.SuffixStrippedKeeps | app/src/main/java/org/tlhInganHol/android/klingonassistant/KlingonContentProvider.java:2284-2309 | a suffix branch is well formed, stands for the same word, has a shorter non-empty stem, is one level further in and lower in the measure |
| WordStates.LevelDoneKeeps | app/src/main/java/org/tlhInganHol/android/klingonassistant/KlingonContentProvider.java:2253-2281 | consuming a level keeps the stem and every finding, keeps the word the candidate stands for and lowers the measure |
| WordStates.BranchStepKeeps | app/src/main/java/org/tlhInganHol/android/klingonassistant/KlingonContentProvider.java:2244-2312 | every step keeps the parent's findings and word, gives only shorter candidates for the same word, and lowers the parent unless it is at level 0 |
| ComplexWords.ComplexWord.MaybeStripApostropheOy | app/src/main/java/org/tlhInganHol/android/klingonassistant/KlingonContentProvider.java:2315-2327 | a branch exactly when a noun at its last level ends in {'oy} after a vowel: the {'oy} is removed, recorded as type 1 {-oy}, and no level is left |
| WordStates.ApostropheOyStrippedKeeps | app/src/main/java/org/tlhInganHol/android/klingonassistant/KlingonContentProvider.java:2315-2327 | the {'oy} branch is well formed, stands for the same word, has a shorter non-empty stem and type 1 set to {-oy} |
| ComplexWords.ComplexWord.IsBareWord | app/src/main/java/org/tlhInganHol/android/klingonassistant/KlingonContentProvider.java:2334-2359 | true exactly when no prefix, no rover and no suffix has been found |
| WordStates.BareSurface | app/src/main/java/org/tlhInganHol/android/klingonassistant/KlingonContentProvider.java:2334-2359 | a bare candidate stands for its stem alone |
| Searches.NumberLikeLeaf | app/src/main/java/org/tlhInganHol/android/klingonassistant/KlingonContentProvider.java:2361-2364 | a finished candidate marked number-like has a stem made of a digit (or {pagh}, {Hoch}, {'ar} with a number suffix), the modifier recorded and the suffix recorded |
| ComplexWords.ComplexWord.NoNounSuffixesFound | app/src/main/java/org/tlhInganHol/android/klingonassistant/KlingonContentProvider.java:2366-2374 | true exactly when every noun suffix slot is empty |
| WordStates.WordState.Filter | app/src/main/java/org/tlhInganHol/android/klingonassistant/KlingonContentProvider.java:2396-2411 | the key starts with the stem; an adjectival verb asks for ":v:n5", a bare word in lenient mode for nothing more, any other candidate for ":n" or ":v" and then its homophone number if it has one |
| LookupKeys.FilterDecodes | app/src/main/java/org/tlhInganHol/android/klingonassistant/KlingonContentProvider.java:2396-2411 | the key, decoded as a query, names the stem and asks for a verb taking a type 5 noun suffix, for nothing, or for a noun or verb with the candidate's homophone number (when 1 to 5) |
| LookupKeys.FilterFinds | app/src/main/java/org/tlhInganHol/android/klingonassistant/KlingonContentProvider.java:1905-2003 | which entries the key finds: the stem's verbs that are neither transitive nor confirmed intransitive; every entry; or the stem's nouns ({nuq}, {'Iv} and epithets included) or verbs and pronouns, of the homophone number asked for |
| LookupKeys.HomophoneAttribute | app/src/main/java/org/tlhInganHol/android/klingonassistant/KlingonContentProvider.java:811-834 | a homophone number written into a key is read back as that number when it is 1 to 5, and as an unrecognised attribute otherwise |
| LookupKeys.AdjectivalKeyDecodes | app/src/main/java/org/tlhInganHol/android/klingonassistant/KlingonContentProvider.java:709-713 | the key of an adjectival verb decodes to a verb whose transitivity is "takes a type 5 noun suffix" |
| LookupKeys.HomophoneKeyDecodes | app/src/main/java/org/tlhInganHol/android/klingonassistant/KlingonContentProvider.java:2396-2411 | a key with a homophone number decodes to that base and number, or to no number if the decoder does not know it |
| WordStates.WordState.GetVerbPrefix | app/src/main/java/org/tlhInganHol/android/klingonassistant/KlingonContentProvider.java:2418-2421 | empty exactly when no prefix was found; otherwise the prefix followed by a hyphen |
| WordParts.PrefixNameRoundTrip | app/src/main/java/org/tlhInganHol/android/klingonassistant/KlingonContentProvider.java:2606-2616 | attaching the prefix name a candidate reports to any verb gives a verb that reports the same name |
| ComplexWords.ComplexWord.GetVerbSuffixes | app/src/main/java/org/tlhInganHol/android/klingonassistant/KlingonContentProvider.java:2423-2429 | one name per verb level: "" when nothing was found there, else the hyphenated suffix |
| ComplexWords.ComplexWord.GetNounSuffixes | app/src/main/java/org/tlhInganHol/android/klingonassistant/KlingonContentProvider.java:2432-2438 | one name per noun type: "" when nothing was found there, else the hyphenated suffix |
| ComplexWords.NamesOf | app/src/main/java/org/tlhInganHol/android/klingonassistant/KlingonContentProvider.java:2423-2438 | the loop of the two getters yields exactly the names of the choices, one per table |
| WordStates.WordState.GetNumberRoot | app/src/main/java/org/tlhInganHol/android/klingonassistant/KlingonContentProvider.java:2441-2457 | the digit found, if any; otherwise {pagh}, {Hoch} or {'ar} exactly when the stem starts with it, and empty when it starts with none of them |
| WordStates.WordState.GetNumberRootAnnotation | app/src/main/java/org/tlhInganHol/android/klingonassistant/KlingonContentProvider.java:2460-2481 | "n:num" exactly for a digit or {pagh}, "n" exactly for {Hoch}, "ques" exactly for {'ar}, and empty otherwise |
| LookupKeys.NumberRootKeyDecodes | app/src/main/java/org/tlhInganHol/android/klingonassistant/KlingonContentProvider.java:2441-2481 | the number root with its annotation, read as a query, describes an entry of that root: a number for a digit or {pagh}, a noun that is not a number for {Hoch}, a question word for {'ar} |
| ComplexWords.ComplexWord.GetSuffixesString | app/src/main/java/org/tlhInganHol/android/klingonassistant/KlingonContentProvider.java:2516-2546 | the display string is built by the loop exactly as SuffixesText describes: verb levels innermost first, each suffix then its rovers, then the noun types |
| WordStates.SuffixesTextAsListed | app/src/main/java/org/tlhInganHol/android/klingonassistant/KlingonContentProvider.java:2516-2546 | the display string is the " + "-list of the names found exactly when the two rovers do not share a level |
| WordStates.BothRoversListedWithoutHyphen | app/src/main/java/org/tlhInganHol/android/klingonassistant/KlingonContentProvider.java:2525-2530 | a verb with {-be'} and {-qu'} at one level is displayed as " + -be' + qu'", which is not the list of the names getRovers gives |
| WordStates.ListedSuffixesTextNamesEach | app/src/main/java/org/tlhInganHol/android/klingonassistant/KlingonContentProvider.java:2516-2546 | with the second rover hyphenated too, the display string is exactly the " + "-list of the names of the suffixes and rovers found, in order |
| ComplexWords.ComplexWord.GetAdjectivalVerbWithType5NounSuffix | app/src/main/java/org/tlhInganHol/android/klingonassistant/KlingonContentProvider.java:2548-2582 | no branch for a noun, a word that is not bare, or a stem without a type 5 noun suffix; otherwise a verb with the first such suffix in table order removed, recorded as its type 5 noun suffix and marked adjectival, with no level left |
| WordStates.AdjectivalKeeps | app/src/main/java/org/tlhInganHol/android/klingonassistant/KlingonContentProvider.java:2548-2582 | the adjectival branch is well formed, stands for the same word, has a shorter stem, is no longer bare and is lower in the measure |
| ComplexWords.ComplexWord.GetVerbRootIfNoun | app/src/main/java/org/tlhInganHol/android/klingonassistant/KlingonContentProvider.java:2584-2604 | a branch exactly when a finished noun took a noun suffix and ends in {-wI'} or {-ghach}; it is the same candidate read as a verb at the outermost verb level |
| WordStates.VerbRootKeeps | app/src/main/java/org/tlhInganHol/android/klingonassistant/KlingonContentProvider.java:2584-2604 | the verb reading is well formed, keeps the stem and the word, is not bare and is lower in the measure |
| ComplexWords.ComplexWord.AttachPrefix | app/src/main/java/org/tlhInganHol/android/klingonassistant/KlingonContentProvider.java:2606-2616 | a verb takes the first prefix whose hyphenated name matches; otherwise nothing changes |
| ComplexWords.FindPrefixNamed | app/src/main/java/org/tlhInganHol/android/klingonassistant/KlingonContentProvider.java:2610-2615 | the first prefix from index 1 on whose name with a trailing hyphen is the given name, or 0 |
| ComplexWords.ComplexWord.AttachSuffix | app/src/main/java/org/tlhInganHol/android/klingonassistant/KlingonContentProvider.java:2619-2678 | the candidate and the returned level are as SuffixAttached describes: a number suffix marks a number; a noun suffix sets its slot; a rover is recorded at the current level; a verb suffix sets its slot and becomes the level |
| ComplexWords.ComplexWord.AttachVerbSuffix | app/src/main/java/org/tlhInganHol/android/klingonassistant/KlingonContentProvider.java:2646-2673 | the verb half of attachSuffix, as SuffixAttached describes it |
| ComplexWords.FindSlot | app/src/main/java/org/tlhInganHol/android/klingonassistant/KlingonContentProvider.java:2619-2678 | the nested scan finds the first table, and within it the first entry from index 1 on, whose hyphenated name is the given name |
| WordParts.NounSuffixNameRoundTrip | app/src/main/java/org/tlhInganHol/android/klingonassistant/KlingonContentProvider.java:2619-2678 | attaching the name of a noun suffix sets exactly one noun slot, to a suffix of that name, and leaves the level alone |
| WordParts.VerbSuffixNameRoundTrip | app/src/main/java/org/tlhInganHol/android/klingonassistant/KlingonContentProvider.java:2619-2678 | attaching the name of a verb suffix sets exactly one verb slot, to a suffix of that name, and returns that slot as the new level |
| WordParts.RoverNameAttachedLast | app/src/main/java/org/tlhInganHol/android/klingonassistant/KlingonContentProvider.java:2619-2678 | a rover attached at a level is listed there after the other rover, if that one is already there |
| WordParts.NumberSuffixAttached | app/src/main/java/org/tlhInganHol/android/klingonassistant/KlingonContentProvider.java:2619-2678 | attaching {-DIch} or {-logh} marks a number with that suffix and changes nothing else |
| ComplexWords.ComplexWord.AddSelf | app/src/main/java/org/tlhInganHol/android/klingonassistant/KlingonContentProvider.java:2681-2751 | a candidate with levels left is not added; a finished one gets its number fields detected and is appended to the list |
| ComplexWords.ComplexWord.DetectNumbers | app/src/main/java/org/tlhInganHol/android/klingonassistant/KlingonContentProvider.java:2694-2743 | only the number fields change, and only on a noun |
| ComplexWords.DetectNumberFields | app/src/main/java/org/tlhInganHol/android/klingonassistant/KlingonContentProvider.java:2693-2744 | the scan splits off the number suffix, then the first modifier in table order, then finds the digit equal to the root |
| ComplexWords.SplitNumberSuffix | app/src/main/java/org/tlhInganHol/android/klingonassistant/KlingonContentProvider.java:2696-2702 | {-DIch} is always split off, {-logh} only from a bare word |
| ComplexWords.StripModifier | app/src/main/java/org/tlhInganHol/android/klingonassistant/KlingonContentProvider.java:2704-2713 | the root is the base without the modifier found, if any |
| WordParts.NumbersDetectedKeeps | app/src/main/java/org/tlhInganHol/android/klingonassistant/KlingonContentProvider.java:2681-2751 | number detection keeps the stem, every affix and the word the candidate stands for, and leaves a verb unchanged |
| WordParts.NumberRoundTrip | app/src/main/java/org/tlhInganHol/android/klingonassistant/KlingonContentProvider.java:2694-2743 | a digit, an optional modifier and an optional number suffix ({-logh} only on a bare word), not the digit alone, are detected as exactly those parts and marked number-like |
| WordParts.NumberLikeIsNumberWord | app/src/main/java/org/tlhInganHol/android/klingonassistant/KlingonContentProvider.java:2694-2743 | a stem marked number-like is a digit, or {pagh}, {Hoch} or {'ar} with a suffix, followed by the modifier and suffix recorded; with neither modifier nor suffix it is not a number |
| ComplexWords.ComplexWordList.Add | app/src/main/java/org/tlhInganHol/android/klingonassistant/KlingonContentProvider.java:2750 | the candidate object is appended to the list, and the list records the state it holds |
| ComplexWords.ParseComplexWord | app/src/main/java/org/tlhInganHol/android/klingonassistant/KlingonContentProvider.java:2755-2771 | the list keeps what it held and gains only new objects; the object at each new position holds the state Parse gives there; those states are all finished analyses standing for the word, and one is the word itself with no affix |
| ComplexWords.ParseInto | app/src/main/java/org/tlhInganHol/android/klingonassistant/KlingonContentProvider.java:2755-2771 | the objects the two searches append hold, in order, the states Parse gives |
| ComplexWords.ParseSearches | app/src/main/java/org/tlhInganHol/android/klingonassistant/KlingonContentProvider.java:2757-2770 | the candidate without its first verb prefix is searched first, then the word itself; the states appended are those of Parse, and the objects are new |
| Searches.ParseLeaves | app/src/main/java/org/tlhInganHol/android/klingonassistant/KlingonContentProvider.java:2755-2771 | every candidate of the analysis is well formed, finished, carries the number fields of its stem and reassembles the input word |
| Searches.ParseHoldsWord | app/src/main/java/org/tlhInganHol/android/klingonassistant/KlingonContentProvider.java:2755-2771 | the word itself with no affix is always among the candidates |
| ComplexWords.StripSuffix | app/src/main/java/org/tlhInganHol/android/klingonassistant/KlingonContentProvider.java:2774-2865 | the states of Search from the given state are appended, as objects that are new or the candidate itself, after what the list held; the recursion terminates on the measure Height |
| ComplexWords.StripFinished | app/src/main/java/org/tlhInganHol/android/klingonassistant/KlingonContentProvider.java:2776-2817 | a finished candidate is itself appended, after number detection, then searched on in its other reading; the list keeps what it held |
| ComplexWords.StripContinued | app/src/main/java/org/tlhInganHol/android/klingonassistant/KlingonContentProvider.java:2782-2815 | what Continued describes is appended as new objects: a noun with a verb root is searched again as a verb, a bare verb ending in a type 5 noun suffix as an adjectival verb |
| ComplexWords.StripVerbRoot | app/src/main/java/org/tlhInganHol/android/klingonassistant/KlingonContentProvider.java:2782-2784 | a noun with a verb root is searched again as that verb; otherwise nothing is appended |
| ComplexWords.StripAdjectivalVerb | app/src/main/java/org/tlhInganHol/android/klingonassistant/KlingonContentProvider.java:2785-2807 | a verb that is not bare, or has no type 5 noun suffix, appends nothing; otherwise its adjectival reading is searched |
| ComplexWords.StripAdjectival | app/src/main/java/org/tlhInganHol/android/klingonassistant/KlingonContentProvider.java:2788-2806 | the branch of the adjectival verb without its trailing {-be'}, {-qu'} or {-Ha'} is searched first, if it has one, then the adjectival verb itself; the objects appended are new or the adjectival verb |
| ComplexWords.AdjectivalRoverBranch | app/src/main/java/org/tlhInganHol/android/klingonassistant/KlingonContentProvider.java:2789-2804 | the trailing {-be'}, {-qu'} or {-Ha'} of an adjectival verb is removed and recorded at the innermost level |
| WordStates.AdjectivalRoverStrippedKeeps | app/src/main/java/org/tlhInganHol/android/klingonassistant/KlingonContentProvider.java:2789-2804 | that branch is well formed, stands for the same word, is finished, not bare, and three letters shorter |
| ComplexWords.StripLevel | app/src/main/java/org/tlhInganHol/android/klingonassistant/KlingonContentProvider.java:2850-2864 | the {'oy} branch is searched, then the branch of the level, then the candidate itself a level further in; objects appended are new or the candidate itself |
| ComplexWords.StripBranchAndParent | app/src/main/java/org/tlhInganHol/android/klingonassistant/KlingonContentProvider.java:2856-2864 | the branch of the level, if any, is searched, then the candidate itself with that level consumed |
| ComplexWords.StripApostropheOyBranch | app/src/main/java/org/tlhInganHol/android/klingonassistant/KlingonContentProvider.java:2850-2854 | the {'oy} branch, if any, is searched; only new objects are appended |
| Searches.SearchLeaves | app/src/main/java/org/tlhInganHol/android/klingonassistant/KlingonContentProvider.java:2774-2865 | every candidate the search adds is finished and stands for the word the starting candidate stands for |
| Searches.SearchHoldsStem | app/src/main/java/org/tlhInganHol/android/klingonassistant/KlingonContentProvider.java:2774-2865 | the search never loses its stem: a candidate with that stem, bare if the start was bare, is always added |
| Searches.AdjectivalLeaves | app/src/main/java/org/tlhInganHol/android/klingonassistant/KlingonContentProvider.java:2785-2806 | on a bare verb ending in a type 5 noun suffix, the adjectival reading and its variant without a trailing rover add only candidates that stand for the same word |
| Entries.Entry.constructor | app/src/main/java/org/tlhInganHol/android/klingonassistant/KlingonContentProvider.java:537-562 | the components follow the first "@@", the part of speech follows the first colon before them, and the fields are the decoded query |
| Entries.SplitQueryRoundTrip | app/src/main/java/org/tlhInganHol/android/klingonassistant/KlingonContentProvider.java:537-562 | a query built from a name without colons, a part of speech and components splits back into exactly those three |
| Entries.PlainQueryDecoded | app/src/main/java/org/tlhInganHol/android/klingonassistant/KlingonContentProvider.java:537-562 | a query without a colon or components is a bare name with the default metadata |
| Entries.DecodedBare | app/src/main/java/org/tlhInganHol/android/klingonassistant/KlingonContentProvider.java:537-562 | "name:base" decodes to that name with that base and otherwise default metadata |
| Entries.DecodedWithAttribute | app/src/main/java/org/tlhInganHol/android/klingonassistant/KlingonContentProvider.java:644-652 | "name:base:attr" decodes to that name and base with that one attribute applied |
| Entries.Entry.ProcessMetadata | app/src/main/java/org/tlhInganHol/android/klingonassistant/KlingonContentProvider.java:644-849 | the base is decoded afresh and the attributes are applied left to right; name, part of speech and components are untouched |
| Entries.Entry.FindBasePartOfSpeech | app/src/main/java/org/tlhInganHol/android/klingonassistant/KlingonContentProvider.java:655-672 | the base part of speech is the one the abbreviation names, and only it changes |
| Entries.BaseOfAbbreviation | app/src/main/java/org/tlhInganHol/android/klingonassistant/KlingonContentProvider.java:655-672 | each abbreviation decodes to the part of speech at its index; the base is unknown exactly when it is empty or not an abbreviation |
| Entries.Entry.ApplyAttribute | app/src/main/java/org/tlhInganHol/android/klingonassistant/KlingonContentProvider.java:674-848 | one attribute changes the fields as Apply describes and nothing else |
| Entries.ApplyEffects | app/src/main/java/org/tlhInganHol/android/klingonassistant/KlingonContentProvider.java:674-848 | one attribute only adds a flag, only hides the homophone number, only confirms the transitivity, writes other fields only by its own kind, and sets the URL only on a url entry |
| Entries.FlagNamed | app/src/main/java/org/tlhInganHol/android/klingonassistant/KlingonContentProvider.java:674-848 | a flag is set by exactly the attribute that names it |
| Entries.SentenceTypeNamed | app/src/main/java/org/tlhInganHol/android/klingonassistant/KlingonContentProvider.java:674-848 | a sentence type is set by exactly the attribute that names it |
| Entries.HidesAndConfirmsNamed | app/src/main/java/org/tlhInganHol/android/klingonassistant/KlingonContentProvider.java:674-848 | the homophone number is hidden by "name" and "1h".."5h" only; the transitivity is confirmed by "ambi", "i_c", "is" and "t_c" only |
| Entries.AttributesCollectFlags | app/src/main/java/org/tlhInganHol/android/klingonassistant/KlingonContentProvider.java:674-848 | attributes never change the base; a flag is set afterwards exactly when it was set before or its attribute is among them |
| Entries.AttributesOnlyHideAndConfirm | app/src/main/java/org/tlhInganHol/android/klingonassistant/KlingonContentProvider.java:674-848 | the homophone number ends hidden exactly when it was hidden or some attribute hides it; likewise for confirming the transitivity |
| Entries.AttributesKeep | app/src/main/java/org/tlhInganHol/android/klingonassistant/KlingonContentProvider.java:674-848 | attributes that do not write a field leave it as it was |
| Entries.LastAttributeWins | app/src/main/java/org/tlhInganHol/android/klingonassistant/KlingonContentProvider.java:674-848 | the last attribute that writes the transitivity, sentence type, homophone number or URL decides it |
| Entries.KindsExclusive | app/src/main/java/org/tlhInganHol/android/klingonassistant/KlingonContentProvider.java:1730-1849 | a verb is no prefix or suffix, a prefix has base verb, pronouns, names and numbers are distinct nouns, and no two of noun, verb, sentence, miscellaneous, source and url hold at once |
| Entries.DecodedKind | app/src/main/java/org/tlhInganHol/android/klingonassistant/KlingonContentProvider.java:1820-1843 | a decoded entry is a noun iff its base is "n", a verb iff its base is "v" with no "pref" or "suff" and no hyphen at either end of its name, and a suffix iff "suff" is given or its name starts with a hyphen |
| Entries.SentenceTypeQueryRoundTrip | app/src/main/java/org/tlhInganHol/android/klingonassistant/KlingonContentProvider.java:1785-1817 | the sentence-type query decodes to a sentence query under "*" of the same sentence type |
| Entries.SatisfiedByConditions | app/src/main/java/org/tlhInganHol/android/klingonassistant/KlingonContentProvider.java:1905-2003 | a candidate satisfies a query exactly when all hold: for a known base, same name and compatible base, and for an adjectival query no pronoun, transitive or confirmed intransitive verb; a homophone number asked for matches; slang, regional and archaic are kept; a name or number query finds only names or numbers |
| Entries.SatisfiedBySelf | app/src/main/java/org/tlhInganHol/android/klingonassistant/KlingonContentProvider.java:1905-2003 | every entry satisfies the query that is itself |
| Entries.PlainQuerySatisfiedByAll | app/src/main/java/org/tlhInganHol/android/klingonassistant/KlingonContentProvider.java:1905-2003 | a query typed without a colon is satisfied by every entry |

## Left out

- The `ContentProvider` plumbing, the database cursor constructor of `Entry`, the conversion to the Klingon font and the URL builder `getURL`. These are I/O, Android framework calls or display text.
- Display formatting and the localised getters (`getFormatted*`, the `_DE`, `_FA`, ... fields, `getTextColor`, `getTransitivityString`, `getVerbPrefixString`, `toString`), and `getComponentsAsEntries`. They only format text for the screen.
- The definition text and the `Context` passed to the query constructor are not part of this model: neither is read by the decoder or the matcher.
- Logging and `BuildConfig.DEBUG` are not modelled. They only print diagnostics.
- The plain getters `getHomophoneNumber`, `isEpithet`, `basePartOfSpeechIsUnknown`, `stem`, `getNumberModifier` and `getNumberSuffix` are not separate members. Each reads one field, which the model exposes as a field of `Record` or `WordState`.
- Surface: the word a candidate stands for is defined only for candidates whose table indices are in range. On others it is empty, and only well-formed candidates ever arise.
- The `int[]` suffix arrays of `ComplexWord` are `seq` fields. No two candidates ever share one, so no aliasing is lost.
- The `ArrayList` of results is a class holding a sequence of candidate objects. A ghost record alongside it holds the state of each, and the list's invariant ties every object to its recorded state. The search methods are proved never to change a candidate once it is in the list.
- The Java reference comparison `suffixes[i] != "oy"` is modelled as string inequality. The table literal is interned, so the two agree.
- LookupKeys.FilterDecodes: stated for stems without ':' or '@'. A stem containing either would be split differently when its key is read back as a query.
- LookupKeys.FilterFinds: stated for stems without ':' or '@', for the same reason.
- LookupKeys.HomophoneKeyDecodes: stated for the bases "n" and "v" only, which are the only bases `filter` writes.

## Findings

| source | as written | input that shows it | evidently intended | confidence | as-written member | corrected member |
|---|---|---|---|---|---|---|
| app/src/main/java/org/tlhInganHol/android/klingonassistant/KlingonContentProvider.java:2525-2530 | when {-be'} and {-qu'} sit at the same verb level, getSuffixesString writes " + -be' + qu'" (or " + -qu' + be'"), with no hyphen on the second rover | a verb with {-be'} followed by {-qu'} at one level, e.g. a stem with negation and emphatic both at level 0 | " + -be' + -qu'", listing each rover with its hyphen as getRovers names them and as every other suffix is listed | not executed | WordStates.BothRoversListedWithoutHyphen | WordStates.ListedSuffixesTextNamesEach |
