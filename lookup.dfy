/** Where the analyzer meets the dictionary: the lookup key of a candidate
    (ComplexWord.filter) is read back as a query by the query constructor of
    Entry, and the entry it describes is what the candidate is looked up
    with. */
module LookupKeys {
  import opened Strings
  import opened AffixTables
  import opened WordStates
  import opened Entries

  /** The root of a number word with its annotation, read as a query,
      describes an entry of that root: a number for a digit or {pagh}, a
      noun that is not a number for {Hoch}, a question word for {'ar}. */
  lemma NumberRootKeyDecodes(s: WordState)
    requires s.numberDigit < |NumberDigits| && s.GetNumberRootAnnotation() != ""
    ensures var q := Decoded(s.GetNumberRoot() + ":" + s.GetNumberRootAnnotation());
      q.entryName == s.GetNumberRoot() &&
      (s.numberDigit != 0 || StartsWith(s.unparsed, "pagh") ==> q.IsNumber()) &&
      (s.numberDigit == 0 && StartsWith(s.unparsed, "Hoch") ==> q.IsNoun() && !q.IsNumber()) &&
      (s.numberDigit == 0 && StartsWith(s.unparsed, "'ar") ==> q.meta.base == Question)
  {
    var root := s.GetNumberRoot();
    var annotation := s.GetNumberRootAnnotation();
    NumberRootPlain(s);
    if annotation == "n:num" {
      NumberKeyDecodes(root);
    } else if annotation == "n" {
      NounKeyDecodes(root);
    } else {
      QuestionKeyDecodes(root);
    }
  }

  /** A name annotated "n:num" describes a number. */
  lemma NumberKeyDecodes(root: string)
    requires ':' !in root && '@' !in root
    ensures var q := Decoded(root + ":" + "n:num"); q.entryName == root && q.IsNumber()
  {
    assert root + ":" + "n:num" == root + ":" + "n" + ":" + "num";
    NumberAttribute();
    DecodedWithAttribute(root, "n", "num");
    BasesNamed();
    assert Apply(DefaultMetadata.(base := Noun), "num").nounType == Number;
  }

  lemma NumberAttribute()
    ensures AttributeOf("num") == SetNounType(Number, false)
  {
  }

  /** A name annotated "n" describes a noun that is not a number. */
  lemma NounKeyDecodes(root: string)
    requires ':' !in root && '@' !in root
    ensures var q := Decoded(root + ":" + "n"); q.entryName == root && q.IsNoun() && !q.IsNumber()
  {
    DecodedBare(root, "n");
    BasesNamed();
  }

  /** A name annotated "ques" describes a question word. */
  lemma QuestionKeyDecodes(root: string)
    requires ':' !in root && '@' !in root
    ensures var q := Decoded(root + ":" + "ques"); q.entryName == root && q.meta.base == Question
  {
    DecodedBare(root, "ques");
    QuestionNamed();
  }

  /** A number root has neither a colon nor an '@'. */
  lemma NumberRootPlain(s: WordState)
    requires s.numberDigit < |NumberDigits|
    ensures ':' !in s.GetNumberRoot() && '@' !in s.GetNumberRoot()
  {
    if s.numberDigit != 0 {
      DigitsPlain(s.numberDigit);
    }
  }

  lemma DigitsPlain(j: nat)
    requires j < |NumberDigits|
    ensures ':' !in NumberDigits[j] && '@' !in NumberDigits[j]
  {
  }

  /** The question-word abbreviation names its base. */
  lemma QuestionNamed()
    ensures BaseOf("ques") == Question
  {
    BaseAmongFinds("ques", |BasePartOfSpeechAbbreviations|);
    assert BasePartOfSpeechAbbreviations[4] == "ques";
  }

  /** A homophone number written out as a key attribute is read back as
      that number when it is one of 1 to 5, the numbers the decoder knows;
      any other number is an unrecognised attribute. */
  lemma HomophoneAttribute(h: int)
    ensures 1 <= h <= 5 ==> AttributeOf(IntToString(h)) == SetHomophone(h, false)
    ensures !(1 <= h <= 5) ==> AttributeOf(IntToString(h)) == Unrecognised
  {
    var r := IntToString(h);
    if 1 <= h <= 5 {
      assert r == [(('0' as int) + h) as char];
    } else if h < 0 {
      SignedUnrecognised(r);
    } else if h < 10 {
      assert r == [(('0' as int) + h) as char];
      DigitUnrecognised(r);
    } else {
      assert r == NatToString(h / 10) + [(('0' as int) + h % 10) as char];
      DigitsUnrecognised(r);
    }
  }

  /** No attribute starts with a minus sign. */
  lemma SignedUnrecognised(r: string)
    requires |r| >= 1 && r[0] == '-'
    ensures AttributeOf(r) == Unrecognised
  {
  }

  /** The one-digit attributes are 1 to 5. */
  lemma DigitUnrecognised(r: string)
    requires |r| == 1 && r[0] in {'0', '6', '7', '8', '9'}
    ensures AttributeOf(r) == Unrecognised
  {
  }

  /** No attribute starts with two digits. */
  lemma DigitsUnrecognised(r: string)
    requires |r| >= 2 && '0' <= r[0] <= '9' && '0' <= r[1] <= '9'
    ensures AttributeOf(r) == Unrecognised
  {
  }

  /** A number written out has neither a colon, a comma nor an '@'. */
  lemma NumberPlain(h: int)
    ensures ':' !in IntToString(h) && ',' !in IntToString(h) && '@' !in IntToString(h)
  {
    var r := IntToString(h);
    if h < 0 {
      assert r == "-" + NatToString(-h);
      assert forall k :: 0 <= k < |r| ==> r[k] == '-' || '0' <= r[k] <= '9';
    }
  }

  /** The key of an adjectival verb asks for a verb that takes a type 5
      noun suffix. */
  lemma AdjectivalKeyDecodes(stem: string)
    requires ':' !in stem && '@' !in stem
    ensures Decoded(stem + ":" + "v" + ":" + "n5")
            == Record(stem, DefaultMetadata.(base := Verb, transitivity := HasType5NounSuffix))
  {
    AdjectivalAttribute();
    DecodedWithAttribute(stem, "v", "n5");
    BasesNamed();
    ApplyEffects(DefaultMetadata.(base := Verb), "n5");
  }

  /** "n5" marks a verb as taking a type 5 noun suffix. */
  lemma AdjectivalAttribute()
    ensures AttributeOf("n5") == SetTransitivity(HasType5NounSuffix, false)
  {
  }

  /** A key with a homophone number asks for that number, if the decoder
      knows it. */
  lemma HomophoneKeyDecodes(stem: string, base: string, h: int)
    requires ':' !in stem && '@' !in stem && (base == "n" || base == "v")
    ensures Decoded(stem + ":" + base + ":" + IntToString(h))
            == Record(stem, DefaultMetadata.(base := BaseOf(base),
                                             homophoneNumber := if 1 <= h <= 5 then h else -1))
  {
    var number := IntToString(h);
    NumberPlain(h);
    DecodedWithAttribute(stem, base, number);
    HomophoneAttribute(h);
    BasesNamed();
    ApplyEffects(DefaultMetadata.(base := BaseOf(base)), number);
  }

  /** The lookup key of a candidate decodes to a query for its stem. The key
      of an adjectival verb asks for a verb taking a type 5 noun suffix; in
      lenient mode the key of a bare word asks for nothing more; any other
      key asks for a noun or a verb, with the candidate's homophone number
      if it has one the decoder knows. */
  lemma FilterDecodes(s: WordState, isLenient: bool)
    requires ':' !in s.unparsed && '@' !in s.unparsed
    ensures var q := Decoded(s.Filter(isLenient));
      q.entryName == s.unparsed &&
      (s.isVerbWithType5NounSuffix ==>
         q.meta == DefaultMetadata.(base := Verb, transitivity := HasType5NounSuffix)) &&
      (!s.isVerbWithType5NounSuffix && isLenient && s.Bare() ==> q.meta == DefaultMetadata) &&
      (!s.isVerbWithType5NounSuffix && !(isLenient && s.Bare()) ==>
         q.meta == DefaultMetadata.(base := if s.isNoun then Noun else Verb,
                                    homophoneNumber := if 1 <= s.homophone <= 5 then s.homophone else -1))
  {
    var stem := s.unparsed;
    var key := s.Filter(isLenient);
    BasesNamed();
    if s.isVerbWithType5NounSuffix {
      assert key == stem + ":" + "v" + ":" + "n5";
      AdjectivalKeyDecodes(stem);
    } else if isLenient && s.Bare() {
      PlainQueryDecoded(stem);
    } else {
      var base := if s.isNoun then "n" else "v";
      if s.homophone == -1 {
        assert key == stem + ":" + base;
        DecodedBare(stem, base);
      } else {
        assert key == stem + ":" + base + ":" + IntToString(s.homophone);
        HomophoneKeyDecodes(stem, base, s.homophone);
      }
    }
  }

  /** What the lookup key of a candidate finds among the entries: in
      lenient mode a bare word finds every entry; an adjectival verb finds
      the verbs of its stem that are neither transitive nor confirmed
      intransitive; any other candidate finds the nouns (with {nuq}, {'Iv}
      and epithets) or the verbs and pronouns of its stem, of its homophone
      number if the decoder knows it. */
  lemma FilterFinds(s: WordState, isLenient: bool, candidate: Record)
    requires ':' !in s.unparsed && '@' !in s.unparsed
    ensures Decoded(s.Filter(isLenient)).SatisfiedBy(candidate) <==>
      if s.isVerbWithType5NounSuffix then
        candidate.entryName == s.unparsed && candidate.meta.base == Verb &&
        candidate.meta.transitivity != Transitive &&
        !(candidate.meta.transitivity == Intransitive && candidate.meta.transitivityConfirmed)
      else if isLenient && s.Bare() then true
      else
        candidate.entryName == s.unparsed &&
        (if s.isNoun then
           candidate.meta.base == Noun || s.unparsed in {"nuq", "'Iv"} || Epithet in candidate.meta.flags
         else candidate.meta.base == Verb || candidate.IsPronoun()) &&
        (1 <= s.homophone <= 5 ==> candidate.meta.homophoneNumber == s.homophone)
  {
    FilterDecodes(s, isLenient);
    var q := Decoded(s.Filter(isLenient));
    SatisfiedByConditions(q, candidate);
  }
}
