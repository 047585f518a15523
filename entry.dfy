/** A dictionary entry as a query builds it: the entry name, the part of
    speech with its attributes, and the analysis components, split off a
    query string of the form "name:base:attr,attr,...@@components"; the
    metadata decoded from the part of speech; the predicates derived from
    it; and the test of whether a candidate entry satisfies a query. */
module Entries {
  import opened Strings

  // ---------------------------------------------------------------------
  // Metadata.

  datatype BasePartOfSpeech =
    | Noun | Verb | Adverbial | Conjunction | Question | Sentence | Exclamation
    | Source | Url | UnknownPartOfSpeech

  /** The abbreviations of the base parts of speech, in declaration order. */
  const BasePartOfSpeechAbbreviations: seq<string> :=
    ["n", "v", "adv", "conj", "ques", "sen", "excl", "src", "url", "???"]

  /** The base parts of speech in declaration order. */
  const BasePartsOfSpeech: seq<BasePartOfSpeech> :=
    [Noun, Verb, Adverbial, Conjunction, Question, Sentence, Exclamation, Source, Url, UnknownPartOfSpeech]

  datatype Transitivity =
    | Transitive | Intransitive | Stative | Ambitransitive | UnknownTransitivity | HasType5NounSuffix

  datatype NounType = General | Number | Name | Pronoun

  datatype SentenceType =
    | Phrase | EmpireUnionDay | CurseWarfare | Idiom | Nentay | Proverb | MilitaryCelebration
    | Rejection | ReplacementProverb | SecrecyProverb | Toast | Lyrics | BeginnersConversation | Joke

  /** The boolean attributes of an entry; each starts out false and is only
      ever set, so an entry holds the set of those that are true. */
  datatype Flag =
    | Prefix | Suffix | Indented
    | InherentPlural | SingularFormOfInherentPlural | Plural
    | Epithet
    | Animal | Archaic | BeingCapableOfLanguage | BodyPart | Derivative | Regional
    | FoodRelated | Invective | PlaceName | Slang | WeaponsRelated
    | AlternativeSpelling | FictionalEntity | Hypothetical | ExtendedCanon | DoNotLink

  /** What the part of speech of an entry says about it. */
  datatype Metadata = Metadata(
    base: BasePartOfSpeech,
    transitivity: Transitivity,
    transitivityConfirmed: bool,
    nounType: NounType,
    sentenceType: SentenceType,
    flags: set<Flag>,
    homophoneNumber: int,        // -1 when none is given
    showHomophoneNumber: bool,
    url: string)

  /** The metadata of a freshly constructed entry. */
  const DefaultMetadata :=
    Metadata(UnknownPartOfSpeech, UnknownTransitivity, false, General, Phrase, {}, -1, true, "")

  /** The effect of one attribute of the part of speech. */
  datatype Attribute =
    | SetFlag(flag: Flag)
    | SetTransitivity(transitivity: Transitivity, confirms: bool)
    | SetNounType(nounType: NounType, hidesNumber: bool)
    | SetSentenceType(sentenceType: SentenceType)
    | SetHomophone(number: int, hidesNumber: bool)
    | Ignored          // known, but of no use here
    | Unrecognised     // the URL itself on a url entry, else reported

  /** The attribute table of processMetadata. */
  function AttributeOf(attr: string): Attribute {
    match attr
    case "pref" => SetFlag(Prefix)
    case "suff" => SetFlag(Suffix)
    case "indent" => SetFlag(Indented)
    case "ambi" => SetTransitivity(Ambitransitive, true)
    case "i" => SetTransitivity(Intransitive, false)
    case "i_c" => SetTransitivity(Intransitive, true)
    case "is" => SetTransitivity(Stative, true)
    case "t" => SetTransitivity(Transitive, false)
    case "t_c" => SetTransitivity(Transitive, true)
    case "n5" => SetTransitivity(HasType5NounSuffix, false)
    case "name" => SetNounType(Name, true)
    case "num" => SetNounType(Number, false)
    case "pro" => SetNounType(Pronoun, false)
    case "inhpl" => SetFlag(InherentPlural)
    case "inhps" => SetFlag(SingularFormOfInherentPlural)
    case "plural" => SetFlag(Plural)
    case "eu" => SetSentenceType(EmpireUnionDay)
    case "mv" => SetSentenceType(CurseWarfare)
    case "idiom" => SetSentenceType(Idiom)
    case "nt" => SetSentenceType(Nentay)
    case "phr" => SetSentenceType(Phrase)
    case "prov" => SetSentenceType(Proverb)
    case "Ql" => SetSentenceType(MilitaryCelebration)
    case "rej" => SetSentenceType(Rejection)
    case "rp" => SetSentenceType(ReplacementProverb)
    case "sp" => SetSentenceType(SecrecyProverb)
    case "toast" => SetSentenceType(Toast)
    case "lyr" => SetSentenceType(Lyrics)
    case "bc" => SetSentenceType(BeginnersConversation)
    case "joke" => SetSentenceType(Joke)
    case "epithet" => SetFlag(Epithet)
    case "anim" => SetFlag(Animal)
    case "archaic" => SetFlag(Archaic)
    case "being" => SetFlag(BeingCapableOfLanguage)
    case "body" => SetFlag(BodyPart)
    case "deriv" => SetFlag(Derivative)
    case "reg" => SetFlag(Regional)
    case "food" => SetFlag(FoodRelated)
    case "inv" => SetFlag(Invective)
    case "place" => SetFlag(PlaceName)
    case "slang" => SetFlag(Slang)
    case "weap" => SetFlag(WeaponsRelated)
    case "alt" => SetFlag(AlternativeSpelling)
    case "fic" => SetFlag(FictionalEntity)
    case "hyp" => SetFlag(Hypothetical)
    case "extcan" => SetFlag(ExtendedCanon)
    case "nolink" => SetFlag(DoNotLink)
    case "noanki" => Ignored
    case "klcp1" => Ignored
    case "1" => SetHomophone(1, false)
    case "2" => SetHomophone(2, false)
    case "3" => SetHomophone(3, false)
    case "4" => SetHomophone(4, false)
    case "5" => SetHomophone(5, false)
    case "1h" => SetHomophone(1, true)
    case "2h" => SetHomophone(2, true)
    case "3h" => SetHomophone(3, true)
    case "4h" => SetHomophone(4, true)
    case "5h" => SetHomophone(5, true)
    case _ => Unrecognised
  }

  /** The attribute that sets each flag. */
  function FlagName(f: Flag): string {
    match f
    case Prefix => "pref"
    case Suffix => "suff"
    case Indented => "indent"
    case InherentPlural => "inhpl"
    case SingularFormOfInherentPlural => "inhps"
    case Plural => "plural"
    case Epithet => "epithet"
    case Animal => "anim"
    case Archaic => "archaic"
    case BeingCapableOfLanguage => "being"
    case BodyPart => "body"
    case Derivative => "deriv"
    case Regional => "reg"
    case FoodRelated => "food"
    case Invective => "inv"
    case PlaceName => "place"
    case Slang => "slang"
    case WeaponsRelated => "weap"
    case AlternativeSpelling => "alt"
    case FictionalEntity => "fic"
    case Hypothetical => "hyp"
    case ExtendedCanon => "extcan"
    case DoNotLink => "nolink"
  }

  /** The attribute that sets each sentence type. */
  function SentenceTypeName(t: SentenceType): string {
    match t
    case Phrase => "phr"
    case EmpireUnionDay => "eu"
    case CurseWarfare => "mv"
    case Idiom => "idiom"
    case Nentay => "nt"
    case Proverb => "prov"
    case MilitaryCelebration => "Ql"
    case Rejection => "rej"
    case ReplacementProverb => "rp"
    case SecrecyProverb => "sp"
    case Toast => "toast"
    case Lyrics => "lyr"
    case BeginnersConversation => "bc"
    case Joke => "joke"
  }

  /** A flag is set by exactly the attribute that names it. */
  lemma FlagNamed(attr: string, f: Flag)
    ensures AttributeOf(attr) == SetFlag(f) <==> attr == FlagName(f)
  {
    if attr == FlagName(f) {
      FlagNameSets(f);
    }
  }

  /** The attribute naming a flag sets it. */
  lemma FlagNameSets(f: Flag)
    ensures AttributeOf(FlagName(f)) == SetFlag(f)
  {
  }

  /** A sentence type is set by exactly the attribute that names it. */
  lemma SentenceTypeNamed(attr: string, t: SentenceType)
    ensures AttributeOf(attr) == SetSentenceType(t) <==> attr == SentenceTypeName(t)
  {
  }

  /** One attribute applied to the metadata, as processMetadata applies it. */
  function Apply(m: Metadata, attr: string): Metadata {
    match AttributeOf(attr)
    case SetFlag(f) => m.(flags := m.flags + {f})
    case SetTransitivity(t, confirms) =>
      m.(transitivity := t, transitivityConfirmed := m.transitivityConfirmed || confirms)
    case SetNounType(n, hides) =>
      m.(nounType := n, showHomophoneNumber := m.showHomophoneNumber && !hides)
    case SetSentenceType(t) => m.(sentenceType := t)
    case SetHomophone(k, hides) =>
      m.(homophoneNumber := k, showHomophoneNumber := m.showHomophoneNumber && !hides)
    case Ignored => m
    case Unrecognised => if m.base == Url then m.(url := attr) else m
  }

  /** The attributes applied left to right. */
  function ApplyAll(m: Metadata, attrs: seq<string>): Metadata {
    if |attrs| == 0 then m else Apply(ApplyAll(m, attrs[..|attrs| - 1]), attrs[|attrs| - 1])
  }

  /** Whether an attribute writes the transitivity, the sentence type, the
      homophone number, or (on a url entry) the URL. */
  predicate WritesTransitivity(attr: string) { AttributeOf(attr).SetTransitivity? }
  predicate WritesSentenceType(attr: string) { AttributeOf(attr).SetSentenceType? }
  predicate WritesHomophone(attr: string) { AttributeOf(attr).SetHomophone? }
  predicate WritesUrl(attr: string) { AttributeOf(attr).Unrecognised? }

  /** Whether an attribute hides the homophone number, or confirms the
      transitivity. */
  predicate Hides(a: Attribute) {
    (a.SetNounType? && a.hidesNumber) || (a.SetHomophone? && a.hidesNumber)
  }

  predicate HidesHomophone(attr: string) {
    Hides(AttributeOf(attr))
  }

  predicate ConfirmsTransitivity(attr: string) {
    var a := AttributeOf(attr);
    a.SetTransitivity? && a.confirms
  }

  /** The attributes that hide the homophone number and those that confirm
      the transitivity. */
  lemma HidesAndConfirmsNamed(attr: string)
    ensures HidesHomophone(attr) <==> attr in {"name", "1h", "2h", "3h", "4h", "5h"}
    ensures ConfirmsTransitivity(attr) <==> attr in {"ambi", "i_c", "is", "t_c"}
  {
  }

  /** What one attribute does to each field: flags are only added, the
      homophone number is only hidden and the transitivity only confirmed;
      a field is otherwise written only by an attribute of its own kind, and
      the URL only on a url entry. */
  lemma ApplyEffects(m: Metadata, attr: string)
    ensures var r := Apply(m, attr);
      r.base == m.base &&
      r.flags == m.flags + (if AttributeOf(attr).SetFlag? then {AttributeOf(attr).flag} else {}) &&
      r.showHomophoneNumber == (m.showHomophoneNumber && !HidesHomophone(attr)) &&
      r.transitivityConfirmed == (m.transitivityConfirmed || ConfirmsTransitivity(attr)) &&
      r.transitivity == (if WritesTransitivity(attr) then AttributeOf(attr).transitivity else m.transitivity) &&
      r.sentenceType == (if WritesSentenceType(attr) then AttributeOf(attr).sentenceType else m.sentenceType) &&
      r.homophoneNumber == (if WritesHomophone(attr) then AttributeOf(attr).number else m.homophoneNumber) &&
      r.url == (if m.base == Url && WritesUrl(attr) then attr else m.url)
  {
  }

  /** The base part of speech of the last abbreviation among the first `n`
      equal to `base`, or unknown. */
  function BaseAmong(base: string, n: nat): BasePartOfSpeech
    requires n <= |BasePartOfSpeechAbbreviations|
  {
    if n == 0 then UnknownPartOfSpeech
    else if BasePartOfSpeechAbbreviations[n - 1] == base then BasePartsOfSpeech[n - 1]
    else BaseAmong(base, n - 1)
  }

  /** The base part of speech an abbreviation names; an empty or unknown
      one is left unknown. */
  function BaseOf(base: string): BasePartOfSpeech {
    if base == "" then UnknownPartOfSpeech else BaseAmong(base, |BasePartOfSpeechAbbreviations|)
  }

  /** A part of speech split at its first colon into the base and the
      comma-separated attributes; without a colon, all of it is the base. */
  function SplitPartOfSpeech(partOfSpeech: string): (string, seq<string>) {
    var colonLoc := IndexOfChar(partOfSpeech, ':');
    if colonLoc == -1 then (partOfSpeech, [])
    else (partOfSpeech[..colonLoc], JavaSplit(partOfSpeech[colonLoc + 1..], ','))
  }

  /** processMetadata: the base is decoded afresh, then the attributes are
      applied to what the entry already holds. */
  function Processed(partOfSpeech: string, m: Metadata): Metadata {
    var (base, attrs) := SplitPartOfSpeech(partOfSpeech);
    ApplyAll(m.(base := BaseOf(base)), attrs)
  }

  // ---------------------------------------------------------------------
  // Properties of the decoding.

  /** The abbreviations used by the lemmas below name their bases. */
  lemma BasesNamed()
    ensures BaseOf("n") == Noun && BaseOf("v") == Verb && BaseOf("sen") == Sentence
  {
    BaseAmongFinds("n", |BasePartOfSpeechAbbreviations|);
    assert BasePartOfSpeechAbbreviations[0] == "n";
    BaseAmongFinds("v", |BasePartOfSpeechAbbreviations|);
    assert BasePartOfSpeechAbbreviations[1] == "v";
    BaseAmongFinds("sen", |BasePartOfSpeechAbbreviations|);
    assert BasePartOfSpeechAbbreviations[5] == "sen";
  }

  /** The last abbreviation among the first `n` equal to `base` gives the
      base part of speech; as the abbreviations are distinct, that is the
      only one. */
  lemma {:induction false} BaseAmongFinds(base: string, n: nat)
    requires n <= |BasePartOfSpeechAbbreviations|
    ensures BaseAmong(base, n) == UnknownPartOfSpeech ||
      exists i :: 0 <= i < n && BasePartOfSpeechAbbreviations[i] == base && BaseAmong(base, n) == BasePartsOfSpeech[i]
    ensures forall i :: 0 <= i < n && BasePartOfSpeechAbbreviations[i] == base ==>
      BaseAmong(base, n) == BasePartsOfSpeech[i]
  {
    if n > 0 {
      BaseAmongFinds(base, n - 1);
      assert forall i, j :: 0 <= i < j < |BasePartOfSpeechAbbreviations| ==>
        BasePartOfSpeechAbbreviations[i] != BasePartOfSpeechAbbreviations[j];
    }
  }

  /** The base decodes by index through the abbreviations: each of the
      first nine names the base part of speech at its index, and anything
      else, "???" and "" included, leaves it unknown. */
  lemma BaseOfAbbreviation(base: string)
    ensures forall i :: 0 <= i < |BasePartOfSpeechAbbreviations| - 1 ==>
      (BaseOf(base) == BasePartsOfSpeech[i] <==> base == BasePartOfSpeechAbbreviations[i])
    ensures BaseOf(base) == UnknownPartOfSpeech <==>
      base !in BasePartOfSpeechAbbreviations[..|BasePartOfSpeechAbbreviations| - 1]
  {
    BaseAmongFinds(base, |BasePartOfSpeechAbbreviations|);
    assert forall i, j :: 0 <= i < j < |BasePartsOfSpeech| ==> BasePartsOfSpeech[i] != BasePartsOfSpeech[j];
  }

  /** Applying attributes in two runs applies them all. */
  lemma {:induction false} ApplyAllAppend(m: Metadata, a: seq<string>, b: seq<string>)
    ensures ApplyAll(m, a + b) == ApplyAll(ApplyAll(m, a), b)
    decreases |b|
  {
    if |b| == 0 {
      assert a + b == a;
    } else {
      var c := a + b;
      assert c[..|c| - 1] == a + b[..|b| - 1];
      assert c[|c| - 1] == b[|b| - 1];
      ApplyAllAppend(m, a, b[..|b| - 1]);
    }
  }

  /** Attributes never change the base part of speech; flags are only ever
      set, and a flag is set exactly when it was, or its attribute occurs. */
  lemma {:induction false} AttributesCollectFlags(m: Metadata, attrs: seq<string>)
    ensures ApplyAll(m, attrs).base == m.base
    ensures m.flags <= ApplyAll(m, attrs).flags
    ensures forall f :: f in ApplyAll(m, attrs).flags <==> f in m.flags || FlagName(f) in attrs
  {
    if |attrs| > 0 {
      var init := attrs[..|attrs| - 1];
      var last := attrs[|attrs| - 1];
      AttributesCollectFlags(m, init);
      ApplyEffects(ApplyAll(m, init), last);
      assert attrs == init + [last];
      forall f
        ensures f in ApplyAll(m, attrs).flags <==> f in m.flags || FlagName(f) in attrs
      {
        FlagNamed(last, f);
      }
    }
  }

  /** The homophone number is hidden exactly when it was, or some attribute
      hides it; the transitivity is confirmed exactly when it was, or some
      attribute confirms it. Neither is ever undone. */
  lemma {:induction false} AttributesOnlyHideAndConfirm(m: Metadata, attrs: seq<string>)
    ensures !ApplyAll(m, attrs).showHomophoneNumber <==>
      !m.showHomophoneNumber || exists a <- attrs :: HidesHomophone(a)
    ensures ApplyAll(m, attrs).transitivityConfirmed <==>
      m.transitivityConfirmed || exists a <- attrs :: ConfirmsTransitivity(a)
  {
    if |attrs| > 0 {
      var init := attrs[..|attrs| - 1];
      var last := attrs[|attrs| - 1];
      AttributesOnlyHideAndConfirm(m, init);
      ApplyEffects(ApplyAll(m, init), last);
      assert attrs == init + [last];
      assert forall a :: a in attrs <==> a in init || a == last;
    }
  }

  /** Attributes that do not write a field leave it as it was. */
  lemma {:induction false} AttributesKeep(m: Metadata, attrs: seq<string>)
    ensures (forall a <- attrs :: !WritesTransitivity(a)) ==> ApplyAll(m, attrs).transitivity == m.transitivity
    ensures (forall a <- attrs :: !WritesSentenceType(a)) ==> ApplyAll(m, attrs).sentenceType == m.sentenceType
    ensures (forall a <- attrs :: !WritesHomophone(a)) ==> ApplyAll(m, attrs).homophoneNumber == m.homophoneNumber
    ensures (forall a <- attrs :: !WritesUrl(a)) || m.base != Url ==> ApplyAll(m, attrs).url == m.url
  {
    if |attrs| > 0 {
      var init := attrs[..|attrs| - 1];
      var last := attrs[|attrs| - 1];
      AttributesKeep(m, init);
      AttributesCollectFlags(m, init);
      ApplyEffects(ApplyAll(m, init), last);
      assert attrs == init + [last];
      assert forall a <- init :: a in attrs;
      assert last in attrs;
    }
  }

  /** The last attribute that writes a field decides it: a later
      transitivity, sentence type, homophone number or URL overrides an
      earlier one. */
  lemma LastAttributeWins(m: Metadata, before: seq<string>, attr: string, after: seq<string>)
    ensures WritesTransitivity(attr) && (forall a <- after :: !WritesTransitivity(a)) ==>
      ApplyAll(m, before + [attr] + after).transitivity == AttributeOf(attr).transitivity
    ensures WritesSentenceType(attr) && (forall a <- after :: !WritesSentenceType(a)) ==>
      ApplyAll(m, before + [attr] + after).sentenceType == AttributeOf(attr).sentenceType
    ensures WritesHomophone(attr) && (forall a <- after :: !WritesHomophone(a)) ==>
      ApplyAll(m, before + [attr] + after).homophoneNumber == AttributeOf(attr).number
    ensures m.base == Url && WritesUrl(attr) && (forall a <- after :: !WritesUrl(a)) ==>
      ApplyAll(m, before + [attr] + after).url == attr
  {
    var mid := ApplyAll(m, before + [attr]);
    ApplyAllAppend(m, before + [attr], after);
    AttributesKeep(mid, after);
    assert (before + [attr])[..|before|] == before;
    AttributesCollectFlags(m, before);
  }

  // ---------------------------------------------------------------------
  // Queries.

  const ComponentsMarker := "@@"

  /** A query split into the entry name, the part of speech and the
      analysis components. */
  datatype QueryParts = QueryParts(entryName: string, partOfSpeech: string, components: string)

  /** The query constructor's split: the components follow the first "@@";
      the part of speech follows the first colon of what precedes it. */
  function SplitQuery(query: string): QueryParts {
    var cmLoc := IndexOf(query, ComponentsMarker);
    var components := if cmLoc != -1 then query[cmLoc + |ComponentsMarker|..] else "";
    var name := if cmLoc != -1 then query[..cmLoc] else query;
    var colonLoc := IndexOfChar(name, ':');
    if colonLoc != -1 then QueryParts(name[..colonLoc], name[colonLoc + 1..], components)
    else QueryParts(name, "", components)
  }

  /** A query built from a name without colons and a part of speech, with
      components appended, splits back into them (neither may contain '@',
      so that the first "@@" is the marker). */
  lemma SplitQueryRoundTrip(name: string, partOfSpeech: string, components: string)
    requires ':' !in name && '@' !in name && '@' !in partOfSpeech
    ensures SplitQuery(name + ":" + partOfSpeech + ComponentsMarker + components)
            == QueryParts(name, partOfSpeech, components)
  {
    var head := name + ":" + partOfSpeech;
    var q := head + ComponentsMarker + components;
    forall i | 0 <= i < |head|
      ensures !OccursAt(q, ComponentsMarker, i)
    {
      assert q[i] == head[i];
    }
    assert OccursAt(q, ComponentsMarker, |head|);
    assert q[..|head|] == head;
    assert q[|head| + 2..] == components;
    assert head[|name|] == ':';
    assert head[..|name|] == name;
    assert head[|name| + 1..] == partOfSpeech;
  }

  /** The entry a query constructs. */
  function Decoded(query: string): Record {
    var parts := SplitQuery(query);
    Record(parts.entryName, Processed(parts.partOfSpeech, DefaultMetadata))
  }

  // ---------------------------------------------------------------------
  // Entries as values.

  /** What an entry's predicates and matching read: its name and metadata. */
  datatype Record = Record(entryName: string, meta: Metadata)
  {
    predicate IsSource() { meta.base == Source }
    predicate IsURL() { meta.base == Url }
    predicate IsPronoun() { meta.base == Noun && meta.nounType == Pronoun }
    predicate IsName() { meta.base == Noun && meta.nounType == Name }
    predicate IsNumber() { meta.base == Noun && meta.nounType == Number }
    predicate IsSentence() { meta.base == Sentence }

    /** A verb that is not a prefix or a suffix. */
    predicate IsVerb() { meta.base == Verb && !IsPrefix() && !IsSuffix() }

    /** Links are not fully annotated, so the name's trailing hyphen also
        marks a prefix. */
    predicate IsPrefix() { meta.base == Verb && (Prefix in meta.flags || EndsWith(entryName, "-")) }

    /** Likewise a leading hyphen marks a suffix, of any part of speech. */
    predicate IsSuffix() { Suffix in meta.flags || StartsWith(entryName, "-") }

    /** A noun, noun suffixes included. */
    predicate IsNoun() { meta.base == Noun }

    predicate IsMisc() { meta.base == Adverbial || meta.base == Conjunction || meta.base == Question }

    /** The query listing all sentences of this entry's sentence type. */
    function SentenceTypeQuery(): string {
      match meta.sentenceType
      case EmpireUnionDay => "*:sen:eu"
      case CurseWarfare => "*:sen:mv"
      case Idiom => "*:sen:idiom"
      case Nentay => "*:sen:nt"
      case Proverb => "*:sen:prov"
      case MilitaryCelebration => "*:sen:Ql"
      case Rejection => "*:sen:rej"
      case ReplacementProverb => "*:sen:rp"
      case SecrecyProverb => "*:sen:sp"
      case Toast => "*:sen:toast"
      case Lyrics => "*:sen:lyr"
      case BeginnersConversation => "*:sen:bc"
      case Joke => "*:sen:joke"
      case Phrase => "*:sen:phr"
    }

    /** Called on a query: whether `candidate` satisfies it. A query with a
        known base part of speech must name the candidate exactly and agree
        on the base, except that a verb query accepts a pronoun and a noun
        query accepts {nuq}, {'Iv} and epithets; a verb query with a type 5
        noun suffix refuses pronouns, transitive verbs and confirmed
        intransitive ones. Any query then requires its homophone number, if
        given, and its slang, regional, archaic, name and number marks. */
    predicate SatisfiedBy(candidate: Record) {
      var isExactMatchForEntryName := entryName == candidate.entryName;
      if meta.base != UnknownPartOfSpeech && !isExactMatchForEntryName then false
      else if meta.base != UnknownPartOfSpeech && meta.base != candidate.meta.base &&
              !(meta.base == Verb && candidate.IsPronoun()) &&
              !(meta.base == Noun && (candidate.entryName == "nuq" || candidate.entryName == "'Iv")) &&
              !(meta.base == Noun && Epithet in candidate.meta.flags) then false
      else if meta.base != UnknownPartOfSpeech && meta.base == Verb &&
              meta.transitivity == HasType5NounSuffix &&
              (candidate.IsPronoun() || candidate.meta.transitivity == Transitive ||
               (candidate.meta.transitivity == Intransitive && candidate.meta.transitivityConfirmed)) then false
      else if meta.homophoneNumber != -1 && meta.homophoneNumber != candidate.meta.homophoneNumber then false
      else if Slang in meta.flags && Slang !in candidate.meta.flags then false
      else if Regional in meta.flags && Regional !in candidate.meta.flags then false
      else if Archaic in meta.flags && Archaic !in candidate.meta.flags then false
      else if IsName() && !candidate.IsName() then false
      else if IsNumber() && !candidate.IsNumber() then false
      else true
    }
  }

  // ---------------------------------------------------------------------
  // Properties of the predicates and of matching.

  /** The kinds are exclusive: a verb is no prefix or suffix, a prefix is
      based on a verb, pronouns, names and numbers are nouns of one type
      each, and nouns, verbs, sentences, miscellany, sources and URLs have
      different bases. */
  lemma KindsExclusive(e: Record)
    ensures e.IsVerb() ==> !e.IsPrefix() && !e.IsSuffix()
    ensures e.IsPrefix() ==> e.meta.base == Verb && !e.IsVerb()
    ensures (e.IsPronoun() || e.IsName() || e.IsNumber()) ==> e.IsNoun()
    ensures !(e.IsPronoun() && e.IsName()) && !(e.IsPronoun() && e.IsNumber()) && !(e.IsName() && e.IsNumber())
    ensures var kinds := [e.IsNoun(), e.meta.base == Verb, e.IsSentence(), e.IsMisc(), e.IsSource(), e.IsURL()];
      forall i, j :: 0 <= i < j < |kinds| ==> !(kinds[i] && kinds[j])
  {
  }

  /** A query without components splits at its first colon. */
  lemma SplitQueryPlain(name: string, partOfSpeech: string)
    requires ':' !in name && '@' !in name && '@' !in partOfSpeech
    ensures SplitQuery(name + ":" + partOfSpeech) == QueryParts(name, partOfSpeech, "")
  {
    var q := name + ":" + partOfSpeech;
    forall i | 0 <= i <= |q|
      ensures !OccursAt(q, ComponentsMarker, i)
    {
      if i < |q| {
        assert q[i] != '@';
      }
    }
    assert q[|name|] == ':';
    assert q[..|name|] == name;
    assert q[|name| + 1..] == partOfSpeech;
  }

  /** A part of speech with one attribute splits into the base and it. */
  lemma SplitPartOfSpeechSingle(base: string, attr: string)
    requires ':' !in base && ',' !in attr
    ensures SplitPartOfSpeech(base + ":" + attr) == (base, [attr])
  {
    var pos := base + ":" + attr;
    assert pos[|base|] == ':';
    assert pos[..|base|] == base;
    assert pos[|base| + 1..] == attr;
  }

  /** The kind of an entry decoded from a base and attributes: a noun
      exactly when the base is "n"; a verb exactly when the base is "v",
      neither "pref" nor "suff" is given, and the name has no hyphen at
      either end; a suffix exactly when "suff" is given or the name starts
      with a hyphen. */
  lemma DecodedKind(name: string, base: string, attrs: seq<string>)
    ensures var e := Record(name, ApplyAll(DefaultMetadata.(base := BaseOf(base)), attrs));
      (e.IsNoun() <==> base == "n") &&
      (e.IsVerb() <==> base == "v" && "pref" !in attrs && "suff" !in attrs &&
                       !EndsWith(name, "-") && !StartsWith(name, "-")) &&
      (e.IsSuffix() <==> "suff" in attrs || StartsWith(name, "-"))
  {
    var m := DefaultMetadata.(base := BaseOf(base));
    var e := Record(name, ApplyAll(m, attrs));
    AttributesCollectFlags(m, attrs);
    assert e.meta.base == BaseOf(base);
    BaseOfAbbreviation(base);
    assert BasePartOfSpeechAbbreviations[0] == "n" && BasePartsOfSpeech[0] == Noun;
    assert BasePartOfSpeechAbbreviations[1] == "v" && BasePartsOfSpeech[1] == Verb;
    assert e.IsNoun() <==> base == "n";
    assert FlagName(Prefix) == "pref" && FlagName(Suffix) == "suff";
    assert Prefix in e.meta.flags <==> "pref" in attrs;
    assert Suffix in e.meta.flags <==> "suff" in attrs;
  }

  /** A query with a base and no attribute decodes to an entry of that
      name and base, with the default metadata otherwise. */
  lemma DecodedBare(name: string, base: string)
    requires ':' !in name && '@' !in name && ':' !in base && '@' !in base
    ensures Decoded(name + ":" + base) == Record(name, DefaultMetadata.(base := BaseOf(base)))
  {
    SplitQueryPlain(name, base);
    assert SplitPartOfSpeech(base) == (base, []);
  }

  /** A query with a base and one attribute decodes to an entry of that
      name and base, with that attribute applied to the default metadata. */
  lemma DecodedWithAttribute(name: string, base: string, attr: string)
    requires ':' !in name && '@' !in name && ':' !in base && '@' !in base && ',' !in attr && '@' !in attr
    ensures Decoded(name + ":" + base + ":" + attr)
            == Record(name, Apply(DefaultMetadata.(base := BaseOf(base)), attr))
  {
    var pos := base + ":" + attr;
    assert name + ":" + base + ":" + attr == name + ":" + pos;
    SplitQueryPlain(name, pos);
    SplitPartOfSpeechSingle(base, attr);
    var m := DefaultMetadata.(base := BaseOf(base));
    assert ApplyAll(m, [attr]) == Apply(ApplyAll(m, []), attr);
  }

  /** The sentence-type query lists the sentences under "*" whose
      attribute names the type. */
  lemma SentenceTypeQueryNamed(e: Record)
    ensures e.SentenceTypeQuery() == "*" + ":" + "sen" + ":" + SentenceTypeName(e.meta.sentenceType)
  {
  }

  /** The sentence-type query decodes to a sentence of the same type. */
  lemma SentenceTypeQueryRoundTrip(e: Record)
    ensures var q := Decoded(e.SentenceTypeQuery());
      q.entryName == "*" && q.IsSentence() && q.meta.sentenceType == e.meta.sentenceType
  {
    var t := e.meta.sentenceType;
    var name := SentenceTypeName(t);
    SentenceTypeQueryNamed(e);
    SentenceTypeNamePlain(t);
    SentenceTypeNamed(name, t);
    DecodedSentenceType(name, t);
  }

  /** No sentence type name holds a comma or an '@'. */
  lemma SentenceTypeNamePlain(t: SentenceType)
    ensures ',' !in SentenceTypeName(t) && '@' !in SentenceTypeName(t)
  {
  }

  /** A sentence query under "*" with an attribute that sets a sentence
      type decodes to a sentence of that type. */
  lemma DecodedSentenceType(attr: string, t: SentenceType)
    requires ',' !in attr && '@' !in attr && AttributeOf(attr) == SetSentenceType(t)
    ensures var q := Decoded("*" + ":" + "sen" + ":" + attr);
      q.entryName == "*" && q.IsSentence() && q.meta.sentenceType == t
  {
    DecodedWithAttribute("*", "sen", attr);
    BasesNamed();
    ApplyEffects(DefaultMetadata.(base := Sentence), attr);
  }

  /** Matching, stated as the conjunction of its conditions. */
  lemma SatisfiedByConditions(query: Record, candidate: Record)
    ensures query.SatisfiedBy(candidate) <==>
      (query.meta.base != UnknownPartOfSpeech ==>
         query.entryName == candidate.entryName &&
         (query.meta.base == candidate.meta.base ||
          (query.meta.base == Verb && candidate.IsPronoun()) ||
          (query.meta.base == Noun && candidate.entryName in {"nuq", "'Iv"}) ||
          (query.meta.base == Noun && Epithet in candidate.meta.flags)) &&
         !(query.meta.base == Verb && query.meta.transitivity == HasType5NounSuffix &&
           (candidate.IsPronoun() || candidate.meta.transitivity == Transitive ||
            (candidate.meta.transitivity == Intransitive && candidate.meta.transitivityConfirmed)))) &&
      (query.meta.homophoneNumber == -1 || query.meta.homophoneNumber == candidate.meta.homophoneNumber) &&
      (forall f :: f in {Slang, Regional, Archaic} && f in query.meta.flags ==> f in candidate.meta.flags) &&
      (query.IsName() ==> candidate.IsName()) &&
      (query.IsNumber() ==> candidate.IsNumber())
  {
  }

  /** Every entry satisfies a query that is itself. */
  lemma SatisfiedBySelf(e: Record)
    ensures e.SatisfiedBy(e)
  {
  }

  /** A query without a colon or components is a name alone: it decodes
      to an entry of that name with the default metadata. */
  lemma PlainQueryDecoded(name: string)
    requires ':' !in name && '@' !in name
    ensures Decoded(name) == Record(name, DefaultMetadata)
  {
    forall i | 0 <= i <= |name|
      ensures !OccursAt(name, ComponentsMarker, i)
    {
      if i < |name| {
        assert name[i] != '@';
      }
    }
    assert SplitQuery(name) == QueryParts(name, "", "");
    assert SplitPartOfSpeech("") == ("", []);
  }

  /** A query typed without a colon has no known base and no attribute, so
      every entry satisfies it. */
  lemma PlainQuerySatisfiedByAll(query: string, candidate: Record)
    requires ':' !in query
    ensures Decoded(query).SatisfiedBy(candidate)
  {
    var parts := SplitQuery(query);
    var name := if IndexOf(query, ComponentsMarker) != -1 then query[..IndexOf(query, ComponentsMarker)] else query;
    assert ':' !in name by {
      if IndexOf(query, ComponentsMarker) != -1 {
        assert forall c <- name :: c in query;
      }
    }
    assert parts.partOfSpeech == "";
    assert SplitPartOfSpeech("") == ("", []);
  }

  // ---------------------------------------------------------------------
  // The entry object.

  /** The split of the query constructor: the components are cut off at
      the first "@@", then the part of speech at the first colon. */
  method SplitQueryParts(query: string) returns (name: string, partOfSpeech: string, components: string)
    ensures QueryParts(name, partOfSpeech, components) == SplitQuery(query)
  {
    name := query;
    partOfSpeech := "";
    components := "";
    var cmLoc := IndexOf(name, ComponentsMarker);
    if cmLoc != -1 {
      components := name[cmLoc + |ComponentsMarker|..];
      name := name[..cmLoc];
    }
    var colonLoc := IndexOfChar(name, ':');
    if colonLoc != -1 {
      partOfSpeech := name[colonLoc + 1..];
      name := name[..colonLoc];
    }
  }

  /** An entry constructed from a query. Its metadata fields are written by
      processMetadata. */
  class Entry {
    var entryName: string
    var partOfSpeech: string
    var components: string
    var basePartOfSpeech: BasePartOfSpeech
    var transitivity: Transitivity
    var transitivityConfirmed: bool
    var nounType: NounType
    var sentenceType: SentenceType
    var flags: set<Flag>
    var homophoneNumber: int
    var showHomophoneNumber: bool
    var url: string

    function Meta(): Metadata
      reads this
    {
      Metadata(basePartOfSpeech, transitivity, transitivityConfirmed, nounType, sentenceType,
               flags, homophoneNumber, showHomophoneNumber, url)
    }

    function Value(): Record
      reads this
    {
      Record(entryName, Meta())
    }

    /** The entry a query describes: the components after "@@" and the part
        of speech after the first colon are split off the name, and the
        metadata is decoded. */
    constructor(query: string)
      ensures Value() == Decoded(query)
      ensures components == SplitQuery(query).components
      ensures partOfSpeech == SplitQuery(query).partOfSpeech
    {
      var name, pos, comps := SplitQueryParts(query);
      entryName := name;
      partOfSpeech := pos;
      components := comps;
      basePartOfSpeech := UnknownPartOfSpeech;
      transitivity := UnknownTransitivity;
      transitivityConfirmed := false;
      nounType := General;
      sentenceType := Phrase;
      flags := {};
      homophoneNumber := -1;
      showHomophoneNumber := true;
      url := "";
      new;
      assert Meta() == DefaultMetadata;
      ProcessMetadata();
    }

    /** Decodes the part of speech into the metadata fields: the base is
        looked up afresh, then each attribute is applied in turn to what the
        entry holds. */
    method ProcessMetadata()
      modifies this
      ensures Meta() == Processed(partOfSpeech, old(Meta()))
      ensures entryName == old(entryName) && partOfSpeech == old(partOfSpeech)
      ensures components == old(components)
    {
      var base := partOfSpeech;
      var attributes: seq<string> := [];
      var colonLoc := IndexOfChar(partOfSpeech, ':');
      if colonLoc != -1 {
        base := partOfSpeech[..colonLoc];
        attributes := JavaSplit(partOfSpeech[colonLoc + 1..], ',');
      }

      FindBasePartOfSpeech(base);

      ghost var start := Meta();
      assert start == old(Meta()).(base := BaseOf(base));
      var k := 0;
      while k < |attributes|
        invariant 0 <= k <= |attributes|
        invariant Meta() == ApplyAll(start, attributes[..k])
        invariant entryName == old(entryName) && partOfSpeech == old(partOfSpeech)
        invariant components == old(components)
      {
        assert attributes[..k + 1] == attributes[..k] + [attributes[k]];
        ApplyAttribute(attributes[k]);
        k := k + 1;
      }
      assert attributes[..|attributes|] == attributes;
    }

    /** The base part of speech named by `base`, looked up through the
        abbreviations; an empty base is left unknown. */
    method FindBasePartOfSpeech(base: string)
      modifies this
      ensures Meta() == old(Meta()).(base := BaseOf(base))
      ensures entryName == old(entryName) && partOfSpeech == old(partOfSpeech)
      ensures components == old(components)
    {
      basePartOfSpeech := UnknownPartOfSpeech;
      if base != "" {
        var i := 0;
        while i < |BasePartOfSpeechAbbreviations|
          invariant 0 <= i <= |BasePartOfSpeechAbbreviations|
          invariant basePartOfSpeech == BaseAmong(base, i)
          invariant Meta() == old(Meta()).(base := basePartOfSpeech)
          invariant entryName == old(entryName) && partOfSpeech == old(partOfSpeech)
          invariant components == old(components)
        {
          if base == BasePartOfSpeechAbbreviations[i] {
            basePartOfSpeech := BasePartsOfSpeech[i];
          }
          i := i + 1;
        }
      }
    }

    /** One attribute of the part of speech, applied to the fields. */
    method ApplyAttribute(attr: string)
      modifies this
      ensures Meta() == Apply(old(Meta()), attr)
      ensures entryName == old(entryName) && partOfSpeech == old(partOfSpeech)
      ensures components == old(components)
    {
      match AttributeOf(attr) {
        case SetFlag(f) =>
          flags := flags + {f};
        case SetTransitivity(t, confirms) =>
          transitivity := t;
          if confirms {
            transitivityConfirmed := true;
          }
        case SetNounType(n, hides) =>
          nounType := n;
          if hides {
            showHomophoneNumber := false;
          }
        case SetSentenceType(t) =>
          sentenceType := t;
        case SetHomophone(number, hides) =>
          homophoneNumber := number;
          if hides {
            showHomophoneNumber := false;
          }
        case Ignored =>
        case Unrecognised =>
          if basePartOfSpeech == Url {
            url := attr;
          }
      }
    }
  }
}
