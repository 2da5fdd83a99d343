/**
 * The webhook's subject vocabulary (`VALID_SUBJECTS`, `SUBJECT_GROUPS`, `CODE_TO_SUBJECT`,
 * `BOARD_CODES`) and `canonical_subject`, which maps a free-text label to the display name
 * of the first canonical subject whose key or one of whose aliases equals the label once
 * both have been through `_norm`.
 */
module Subjects {
  import opened Opt
  import opened Text

  // ---------------------------------------------------------------------------
  // The tables
  // ---------------------------------------------------------------------------

  /** A word of a subject key or alias: lower-case letters, or `&`. */
  predicate IsWord(w: string) {
    w != [] && forall i :: 0 <= i < |w| ==> 'a' <= w[i] <= 'z' || w[i] == '&'
  }

  /** A key or alias of `VALID_SUBJECTS` as its words: the Python string is the words joined by single spaces. */
  predicate IsPhrase(p: seq<string>) {
    p != [] && forall m :: 0 <= m < |p| ==> IsWord(p[m])
  }

  /** `" ".join(words)`. */
  function Spell(words: seq<string>): string {
    Join(words, ' ')
  }

  /**
   * One `VALID_SUBJECTS` entry: the canonical key, its `str.title()` form and its aliases, all as
   * words.
   */
  datatype SubjectEntry = SubjectEntry(key: seq<string>, title: seq<string>, aliases: seq<seq<string>>)

  /** The shape every entry of the table has. */
  predicate WellFormed(e: SubjectEntry) {
    IsPhrase(e.key) && forall k :: 0 <= k < |e.aliases| ==> IsPhrase(e.aliases[k])
  }

  const Math: SubjectEntry := SubjectEntry(
    ["math"], ["Math"], [["math"], ["mathematics"], ["additional", "math"], ["further", "math"]])
  const Physics: SubjectEntry := SubjectEntry(["physics"], ["Physics"], [["physics"], ["phys"]])
  const Chemistry: SubjectEntry := SubjectEntry(["chemistry"], ["Chemistry"], [["chemistry"], ["chem"]])
  const Biology: SubjectEntry := SubjectEntry(["biology"], ["Biology"], [["biology"], ["bio"]])
  const EnglishLanguage: SubjectEntry := SubjectEntry(
    ["english", "language"], ["English", "Language"],
    [["english"], ["english", "language"], ["esl"], ["first", "language", "english"],
     ["second", "language", "english"]])
  const EnglishLiterature: SubjectEntry := SubjectEntry(
    ["english", "literature"], ["English", "Literature"], [["english", "literature"], ["literature"]])
  const ComputerScience: SubjectEntry := SubjectEntry(
    ["computer", "science"], ["Computer", "Science"], [["computer", "science"], ["cs"]])
  const Ict: SubjectEntry := SubjectEntry(
    ["ict"], ["Ict"], [["ict"], ["information", "and", "communication", "technology"]])
  const Business: SubjectEntry := SubjectEntry(
    ["business"], ["Business"], [["business"], ["business", "studies"]])
  const Economics: SubjectEntry := SubjectEntry(["economics"], ["Economics"], [["economics"], ["econ"]])
  const Accounting: SubjectEntry := SubjectEntry(
    ["accounting"], ["Accounting"], [["accounting"], ["accounts"]])
  const Geography: SubjectEntry := SubjectEntry(["geography"], ["Geography"], [["geography"], ["geo"]])
  const History: SubjectEntry := SubjectEntry(["history"], ["History"], [["history"]])
  const Arabic: SubjectEntry := SubjectEntry(
    ["arabic"], ["Arabic"],
    [["arabic"], ["arabic", "first", "language"], ["arabic", "foreign", "language"]])
  const French: SubjectEntry := SubjectEntry(["french"], ["French"], [["french"]])
  const German: SubjectEntry := SubjectEntry(["german"], ["German"], [["german"]])
  const Spanish: SubjectEntry := SubjectEntry(["spanish"], ["Spanish"], [["spanish"]])
  const Sociology: SubjectEntry := SubjectEntry(["sociology"], ["Sociology"], [["sociology"]])
  const HumanitiesSocialSciences: SubjectEntry := SubjectEntry(
    ["humanities", "&", "social", "sciences"], ["Humanities", "&", "Social", "Sciences"],
    [["humanities"], ["social", "sciences"]])
  const EnvironmentalManagement: SubjectEntry := SubjectEntry(
    ["environmental", "management"], ["Environmental", "Management"],
    [["environmental", "management"], ["em"]])
  const PhysicalEducation: SubjectEntry := SubjectEntry(
    ["physical", "education"], ["Physical", "Education"], [["pe"], ["physical", "education"]])
  const TravelTourism: SubjectEntry := SubjectEntry(
    ["travel", "&", "tourism"], ["Travel", "&", "Tourism"],
    [["travel", "&", "tourism"], ["travel"], ["tourism"]])

  /** `VALID_SUBJECTS`, in declaration order (a dict literal keeps it). */
  const ValidSubjects: seq<SubjectEntry> := [
    Math, Physics, Chemistry, Biology, EnglishLanguage, EnglishLiterature, ComputerScience, Ict,
    Business, Economics, Accounting, Geography, History, Arabic, French, German, Spanish, Sociology,
    HumanitiesSocialSciences, EnvironmentalManagement, PhysicalEducation, TravelTourism
  ]

  /** `SUBJECT_GROUPS`: the subject keyboard's sections, each a list of (code, button label). */
  const SubjectGroups: seq<(string, seq<(string, string)>)> := [
    ("Core subjects", [
      ("MTH", "Mathematics"), ("ENL", "English Language"), ("ENLIT", "English Literature"),
      ("BIO", "Biology"), ("CHE", "Chemistry"), ("PHY", "Physics"),
      ("HUM", "Humanities & Social Sciences"), ("BUS", "Business Studies"),
      ("ECO", "Economics"), ("ACC", "Accounting"), ("SOC", "Sociology")]),
    ("Languages", [("FR", "French"), ("DE", "German"), ("AR", "Arabic (First or Second Language)")]),
    ("Creative & Technical", [
      ("ICT", "Information & Communication Technology (ICT)"), ("CS", "Computer Science")]),
    ("Other options", [
      ("EM", "Environmental Management"), ("PE", "Physical Education (PE)"), ("TT", "Travel & Tourism")])
  ]

  /** `CODE_TO_SUBJECT`, each label as its words (the label is the words joined by single spaces). */
  const CodeToSubject: map<string, seq<string>> := map[
    "MTH" := ["Math"],
    "ENL" := ["English", "Language"],
    "ENLIT" := ["English", "Literature"],
    "BIO" := ["Biology"],
    "CHE" := ["Chemistry"],
    "PHY" := ["Physics"],
    "HUM" := ["Humanities", "&", "Social", "Sciences"],
    "BUS" := ["Business"],
    "ECO" := ["Economics"],
    "ACC" := ["Accounting"],
    "SOC" := ["Sociology"],
    "FR" := ["French"],
    "DE" := ["German"],
    "AR" := ["Arabic"],
    "ICT" := ["ICT"],
    "CS" := ["Computer", "Science"],
    "EM" := ["Environmental", "Management"],
    "PE" := ["Physical", "Education"],
    "TT" := ["Travel", "&", "Tourism"]
  ]

  /** `CODE_TO_SUBJECT[code]`. */
  function SubjectOfCode(code: string): string
    requires code in CodeToSubject
  {
    Spell(CodeToSubject[code])
  }

  /** `BOARD_CODES`. */
  const BoardCodes: map<string, string> := map["C" := "Cambridge", "E" := "Edexcel", "O" := "OxfordAQA"]

  // ---------------------------------------------------------------------------
  // canonical_subject
  // ---------------------------------------------------------------------------

  /**
   * The `nice` overrides of `canonical_subject`, keyed by the canonical key (which is its own
   * `lower()`), key and name both as words.
   */
  const Nice: map<seq<string>, seq<string>> := map[
    ["ict"] := ["ICT"],
    ["cs"] := ["Computer", "Science"],
    ["pe"] := ["Physical", "Education"],
    ["english", "language"] := ["English", "Language"],
    ["english", "literature"] := ["English", "Literature"],
    ["math"] := ["Math"]
  ]

  /** The words of `nice.get(key.lower(), key.title())`. */
  function DisplayWords(e: SubjectEntry): seq<string> {
    if e.key in Nice then Nice[e.key] else e.title
  }

  /** The name `canonical_subject` returns for an entry. */
  function DisplayName(e: SubjectEntry): string {
    Spell(DisplayWords(e))
  }

  /** `[canonical] + aliases`. */
  function Pool(e: SubjectEntry): seq<seq<string>> {
    [e.key] + e.aliases
  }

  /** `[_norm(x) for x in phrases]`, each phrase spelled out first. */
  function NormAll(phrases: seq<seq<string>>): (r: seq<string>)
    ensures |r| == |phrases|
  {
    seq(|phrases|, k requires 0 <= k < |phrases| => Norm(Spell(phrases[k])))
  }

  /** `any(_norm(x) == t for x in pool)`: `t` is among the normalised pool of `e`. */
  predicate PoolMatches(e: SubjectEntry, t: string) {
    t in NormAll(Pool(e))
  }

  /** The normalised pool of every entry of `table`, in order. */
  function NormPools(table: seq<SubjectEntry>): (r: seq<seq<string>>)
    ensures |r| == |table|
    ensures forall i :: 0 <= i < |table| ==> r[i] == NormAll(Pool(table[i]))
  {
    seq(|table|, i requires 0 <= i < |table| => NormAll(Pool(table[i])))
  }

  /** `pools[i]` is the first pool, in order, that holds `t`. */
  predicate IsFirstIn(pools: seq<seq<string>>, i: int, t: string) {
    0 <= i < |pools| && t in pools[i] && forall j :: 0 <= j < i ==> t !in pools[j]
  }

  /** The scan of `canonical_subject` from pool `i` on: the index of the first pool holding `t`. */
  function FirstMatchFrom(pools: seq<seq<string>>, t: string, i: nat): (r: Option<nat>)
    requires i <= |pools|
    requires forall j :: 0 <= j < i ==> t !in pools[j]
    ensures r.Some? ==> IsFirstIn(pools, r.value, t)
    ensures r.None? ==> forall j :: 0 <= j < |pools| ==> t !in pools[j]
    decreases |pools| - i
  {
    if i == |pools| then None
    else if t in pools[i] then Some(i)
    else FirstMatchFrom(pools, t, i + 1)
  }

  /** Entry `i` is the first entry of `table` whose pool matches `t`. */
  predicate IsFirstMatch(table: seq<SubjectEntry>, i: int, t: string) {
    && 0 <= i < |table|
    && PoolMatches(table[i], t)
    && forall j :: 0 <= j < i ==> !PoolMatches(table[j], t)
  }

  /** The loop of `canonical_subject` over the entries of `table`: the first entry matching `t`, if any. */
  function FirstMatch(table: seq<SubjectEntry>, t: string): (r: Option<nat>)
    ensures r.Some? ==> IsFirstMatch(table, r.value, t)
    ensures r.None? <==> forall i :: 0 <= i < |table| ==> !PoolMatches(table[i], t)
  {
    var pools := NormPools(table);
    assert forall i :: 0 <= i < |table| ==> (PoolMatches(table[i], t) <==> t in pools[i]);
    FirstMatchFrom(pools, t, 0)
  }

  /**
   * `canonical_subject(raw)`: the display name of the first entry with a key or alias equal
   * to `raw` once both are normalised, or `None` when there is none.
   */
  function CanonicalSubject(raw: string): (r: Option<string>)
    ensures r.None? <==> forall i :: 0 <= i < |ValidSubjects| ==> !PoolMatches(ValidSubjects[i], Norm(raw))
    ensures r.Some? ==>
      exists i :: IsFirstMatch(ValidSubjects, i, Norm(raw)) && r.value == DisplayName(ValidSubjects[i])
  {
    match FirstMatch(ValidSubjects, Norm(raw))
    case Some(i) => Some(DisplayName(ValidSubjects[i]))
    case None => None
  }

  // ---------------------------------------------------------------------------
  // Facts about the tables
  // ---------------------------------------------------------------------------

  /** A word has neither whitespace nor upper case. */
  lemma WordIsPlain(w: string)
    requires IsWord(w)
    ensures forall i :: 0 <= i < |w| ==> !IsSpace(w[i]) && !IsUpper(w[i])
    ensures ' ' !in w
  {
  }

  /** A word followed by a space and a non-empty normal string is normal. */
  lemma WordThenNormal(w: string, r: string)
    requires IsWord(w) && IsNormal(r) && r != []
    ensures IsNormal(w + [' '] + r)
  {
    WordIsPlain(w);
    var s := w + [' '] + r;
    forall i | 0 <= i < |s|
      ensures (IsSpace(s[i]) ==> s[i] == ' ') && !IsUpper(s[i])
    {
      if i > |w| {
        assert s[i] == r[i - |w| - 1];
      }
    }
    forall i | 0 <= i < |s| - 1 && s[i] == ' '
      ensures s[i + 1] != ' '
    {
      if i > |w| {
        assert s[i] == r[i - |w| - 1] && s[i + 1] == r[i - |w|];
      } else {
        assert i == |w| && s[i + 1] == r[0];
      }
    }
    assert s[|s| - 1] == r[|r| - 1];
  }

  /** A key or alias, spelled out, is already in `_norm` form. */
  lemma {:induction false} SpellIsNormal(p: seq<string>)
    requires IsPhrase(p)
    ensures IsNormal(Spell(p)) && Spell(p) != []
    decreases |p|
  {
    assert IsWord(p[0]);
    WordIsPlain(p[0]);
    if |p| > 1 {
      assert IsPhrase(p[1..]) by {
        forall m | 0 <= m < |p| - 1 ensures IsWord(p[1..][m]) {
          assert p[1..][m] == p[m + 1];
        }
      }
      SpellIsNormal(p[1..]);
      WordThenNormal(p[0], Spell(p[1..]));
    }
  }

  /** Distinct keys and aliases are distinct strings. */
  lemma SpellInjective(p: seq<string>, q: seq<string>)
    requires IsPhrase(p) && IsPhrase(q) && Spell(p) == Spell(q)
    ensures p == q
  {
    forall m | 0 <= m < |p| ensures ' ' !in p[m] {
      WordIsPlain(p[m]);
    }
    forall m | 0 <= m < |q| ensures ' ' !in q[m] {
      WordIsPlain(q[m]);
    }
    SplitNJoin(p, ' ', |Spell(p)|);
    SplitNJoin(q, ' ', |Spell(q)|);
  }

  /** Entry `i`'s key is neither the key nor an alias of an earlier entry. */
  predicate KeyFirstAt(i: int)
    requires 0 <= i < |ValidSubjects|
  {
    forall j :: 0 <= j < i ==> ValidSubjects[i].key !in Pool(ValidSubjects[j])
  }

  /** Words `d` are words `k` with some letters in upper case. */
  predicate RecasesWords(d: seq<string>, k: seq<string>) {
    |d| == |k| && forall m :: 0 <= m < |d| ==> Recases(d[m], k[m])
  }

  /** The display name of `e` differs from its key only in letter case. */
  predicate DisplayFits(e: SubjectEntry) {
    RecasesWords(DisplayWords(e), e.key)
  }

  /** The two facts checked entry by entry below. */
  predicate TableFactsAt(i: int)
    requires 0 <= i < |ValidSubjects|
  {
    KeyFirstAt(i) && WellFormed(ValidSubjects[i]) && DisplayFits(ValidSubjects[i])
  }

  lemma AtMath()
    ensures ValidSubjects[0] == Math && KeyFirstAt(0)
  {
  }

  lemma ShapeMath()
    ensures WellFormed(Math)
  {
  }

  lemma FitsMath()
    ensures DisplayFits(Math)
  {
    assert Math.key == ["math"];
    assert Nice[["math"]] == ["Math"];
    assert RecasesWords(["Math"], ["math"]);
  }

  lemma AtPhysics()
    ensures ValidSubjects[1] == Physics && KeyFirstAt(1)
  {
  }

  lemma ShapePhysics()
    ensures WellFormed(Physics)
  {
  }

  lemma FitsPhysics()
    ensures DisplayFits(Physics)
  {
    assert Physics.key == ["physics"] && Physics.title == ["Physics"];
    assert ["physics"] !in Nice;
    assert RecasesWords(["Physics"], ["physics"]);
  }

  lemma AtChemistry()
    ensures ValidSubjects[2] == Chemistry && KeyFirstAt(2)
  {
  }

  lemma ShapeChemistry()
    ensures WellFormed(Chemistry)
  {
  }

  lemma FitsChemistry()
    ensures DisplayFits(Chemistry)
  {
    assert Chemistry.key == ["chemistry"] && Chemistry.title == ["Chemistry"];
    assert ["chemistry"] !in Nice;
    assert RecasesWords(["Chemistry"], ["chemistry"]);
  }

  lemma AtBiology()
    ensures ValidSubjects[3] == Biology && KeyFirstAt(3)
  {
  }

  lemma ShapeBiology()
    ensures WellFormed(Biology)
  {
  }

  lemma FitsBiology()
    ensures DisplayFits(Biology)
  {
    assert Biology.key == ["biology"] && Biology.title == ["Biology"];
    assert ["biology"] !in Nice;
    assert RecasesWords(["Biology"], ["biology"]);
  }

  lemma AtEnglishLanguage()
    ensures ValidSubjects[4] == EnglishLanguage && KeyFirstAt(4)
  {
  }

  lemma ShapeEnglishLanguage()
    ensures WellFormed(EnglishLanguage)
  {
    assert IsWord("english") && IsWord("language");
    assert IsPhrase(["first", "language", "english"]) by { assert IsWord("first"); }
    assert IsPhrase(["second", "language", "english"]) by { assert IsWord("second"); }
  }

  lemma FitsEnglishLanguage()
    ensures DisplayFits(EnglishLanguage)
  {
    assert EnglishLanguage.key == ["english", "language"];
    assert Nice[["english", "language"]] == ["English", "Language"];
    assert RecasesWords(["English", "Language"], ["english", "language"]);
  }

  lemma AtEnglishLiterature()
    ensures ValidSubjects[5] == EnglishLiterature && KeyFirstAt(5)
  {
  }

  lemma ShapeEnglishLiterature()
    ensures WellFormed(EnglishLiterature)
  {
  }

  lemma FitsEnglishLiterature()
    ensures DisplayFits(EnglishLiterature)
  {
    assert EnglishLiterature.key == ["english", "literature"];
    assert Nice[["english", "literature"]] == ["English", "Literature"];
    assert RecasesWords(["English", "Literature"], ["english", "literature"]);
  }

  lemma AtComputerScience()
    ensures ValidSubjects[6] == ComputerScience && KeyFirstAt(6)
  {
  }

  lemma ShapeComputerScience()
    ensures WellFormed(ComputerScience)
  {
  }

  lemma FitsComputerScience()
    ensures DisplayFits(ComputerScience)
  {
    assert ComputerScience.key == ["computer", "science"] && ComputerScience.title == ["Computer", "Science"];
    assert ["computer", "science"] !in Nice;
    assert RecasesWords(["Computer", "Science"], ["computer", "science"]);
  }

  lemma AtIct()
    ensures ValidSubjects[7] == Ict && KeyFirstAt(7)
  {
  }

  lemma ShapeIct()
    ensures WellFormed(Ict)
  {
  }

  lemma FitsIct()
    ensures DisplayFits(Ict)
  {
    assert Ict.key == ["ict"];
    assert Nice[["ict"]] == ["ICT"];
    assert RecasesWords(["ICT"], ["ict"]);
  }

  lemma AtBusiness()
    ensures ValidSubjects[8] == Business && KeyFirstAt(8)
  {
  }

  lemma ShapeBusiness()
    ensures WellFormed(Business)
  {
  }

  lemma FitsBusiness()
    ensures DisplayFits(Business)
  {
    assert Business.key == ["business"] && Business.title == ["Business"];
    assert ["business"] !in Nice;
    assert RecasesWords(["Business"], ["business"]);
  }

  lemma AtEconomics()
    ensures ValidSubjects[9] == Economics && KeyFirstAt(9)
  {
  }

  lemma ShapeEconomics()
    ensures WellFormed(Economics)
  {
  }

  lemma FitsEconomics()
    ensures DisplayFits(Economics)
  {
    assert Economics.key == ["economics"] && Economics.title == ["Economics"];
    assert ["economics"] !in Nice;
    assert RecasesWords(["Economics"], ["economics"]);
  }

  lemma AtAccounting()
    ensures ValidSubjects[10] == Accounting && KeyFirstAt(10)
  {
  }

  lemma ShapeAccounting()
    ensures WellFormed(Accounting)
  {
  }

  lemma FitsAccounting()
    ensures DisplayFits(Accounting)
  {
    assert Accounting.key == ["accounting"] && Accounting.title == ["Accounting"];
    assert ["accounting"] !in Nice;
    assert RecasesWords(["Accounting"], ["accounting"]);
  }

  lemma AtGeography()
    ensures ValidSubjects[11] == Geography && KeyFirstAt(11)
  {
  }

  lemma ShapeGeography()
    ensures WellFormed(Geography)
  {
  }

  lemma FitsGeography()
    ensures DisplayFits(Geography)
  {
    assert Geography.key == ["geography"] && Geography.title == ["Geography"];
    assert ["geography"] !in Nice;
    assert RecasesWords(["Geography"], ["geography"]);
  }

  lemma AtHistory()
    ensures ValidSubjects[12] == History && KeyFirstAt(12)
  {
  }

  lemma ShapeHistory()
    ensures WellFormed(History)
  {
  }

  lemma FitsHistory()
    ensures DisplayFits(History)
  {
    assert History.key == ["history"] && History.title == ["History"];
    assert ["history"] !in Nice;
    assert RecasesWords(["History"], ["history"]);
  }

  lemma AtArabic()
    ensures ValidSubjects[13] == Arabic && KeyFirstAt(13)
  {
  }

  lemma ShapeArabic()
    ensures WellFormed(Arabic)
  {
  }

  lemma FitsArabic()
    ensures DisplayFits(Arabic)
  {
    assert Arabic.key == ["arabic"] && Arabic.title == ["Arabic"];
    assert ["arabic"] !in Nice;
    assert RecasesWords(["Arabic"], ["arabic"]);
  }

  lemma AtFrench()
    ensures ValidSubjects[14] == French && KeyFirstAt(14)
  {
  }

  lemma ShapeFrench()
    ensures WellFormed(French)
  {
  }

  lemma FitsFrench()
    ensures DisplayFits(French)
  {
    assert French.key == ["french"] && French.title == ["French"];
    assert ["french"] !in Nice;
    assert RecasesWords(["French"], ["french"]);
  }

  lemma AtGerman()
    ensures ValidSubjects[15] == German && KeyFirstAt(15)
  {
  }

  lemma ShapeGerman()
    ensures WellFormed(German)
  {
  }

  lemma FitsGerman()
    ensures DisplayFits(German)
  {
    assert German.key == ["german"] && German.title == ["German"];
    assert ["german"] !in Nice;
    assert RecasesWords(["German"], ["german"]);
  }

  lemma AtSpanish()
    ensures ValidSubjects[16] == Spanish && KeyFirstAt(16)
  {
  }

  lemma ShapeSpanish()
    ensures WellFormed(Spanish)
  {
  }

  lemma FitsSpanish()
    ensures DisplayFits(Spanish)
  {
    assert Spanish.key == ["spanish"] && Spanish.title == ["Spanish"];
    assert ["spanish"] !in Nice;
    assert RecasesWords(["Spanish"], ["spanish"]);
  }

  lemma AtSociology()
    ensures ValidSubjects[17] == Sociology && KeyFirstAt(17)
  {
  }

  lemma ShapeSociology()
    ensures WellFormed(Sociology)
  {
  }

  lemma FitsSociology()
    ensures DisplayFits(Sociology)
  {
    assert Sociology.key == ["sociology"] && Sociology.title == ["Sociology"];
    assert ["sociology"] !in Nice;
    assert RecasesWords(["Sociology"], ["sociology"]);
  }

  lemma AtHumanitiesSocialSciences()
    ensures ValidSubjects[18] == HumanitiesSocialSciences && KeyFirstAt(18)
  {
  }

  lemma ShapeHumanitiesSocialSciences()
    ensures WellFormed(HumanitiesSocialSciences)
  {
  }

  lemma FitsHumanitiesSocialSciences()
    ensures DisplayFits(HumanitiesSocialSciences)
  {
    assert HumanitiesSocialSciences.key == ["humanities", "&", "social", "sciences"] && HumanitiesSocialSciences.title == ["Humanities", "&", "Social", "Sciences"];
    assert ["humanities", "&", "social", "sciences"] !in Nice;
    assert RecasesWords(["Humanities", "&", "Social", "Sciences"], ["humanities", "&", "social", "sciences"]);
  }

  lemma AtEnvironmentalManagement()
    ensures ValidSubjects[19] == EnvironmentalManagement && KeyFirstAt(19)
  {
  }

  lemma ShapeEnvironmentalManagement()
    ensures WellFormed(EnvironmentalManagement)
  {
  }

  lemma FitsEnvironmentalManagement()
    ensures DisplayFits(EnvironmentalManagement)
  {
    assert EnvironmentalManagement.key == ["environmental", "management"] && EnvironmentalManagement.title == ["Environmental", "Management"];
    assert ["environmental", "management"] !in Nice;
    assert RecasesWords(["Environmental", "Management"], ["environmental", "management"]);
  }

  lemma AtPhysicalEducation()
    ensures ValidSubjects[20] == PhysicalEducation && KeyFirstAt(20)
  {
  }

  lemma ShapePhysicalEducation()
    ensures WellFormed(PhysicalEducation)
  {
  }

  lemma FitsPhysicalEducation()
    ensures DisplayFits(PhysicalEducation)
  {
    assert PhysicalEducation.key == ["physical", "education"] && PhysicalEducation.title == ["Physical", "Education"];
    assert ["physical", "education"] !in Nice;
    assert RecasesWords(["Physical", "Education"], ["physical", "education"]);
  }

  lemma AtTravelTourism()
    ensures ValidSubjects[21] == TravelTourism && KeyFirstAt(21)
  {
  }

  lemma ShapeTravelTourism()
    ensures WellFormed(TravelTourism)
  {
  }

  lemma FitsTravelTourism()
    ensures DisplayFits(TravelTourism)
  {
    assert TravelTourism.key == ["travel", "&", "tourism"] && TravelTourism.title == ["Travel", "&", "Tourism"];
    assert ["travel", "&", "tourism"] !in Nice;
    assert RecasesWords(["Travel", "&", "Tourism"], ["travel", "&", "tourism"]);
  }

  /**
   * No entry's key is the key or an alias of an earlier entry, and the `nice` override of a key
   * only changes the case of its letters.
   */
  lemma TableFacts(i: int)
    requires 0 <= i < |ValidSubjects|
    ensures TableFactsAt(i)
  {
    if i == 0 {
      AtMath();
      ShapeMath();
      FitsMath();
    } else if i == 1 {
      AtPhysics();
      ShapePhysics();
      FitsPhysics();
    } else if i == 2 {
      AtChemistry();
      ShapeChemistry();
      FitsChemistry();
    } else if i == 3 {
      AtBiology();
      ShapeBiology();
      FitsBiology();
    } else if i == 4 {
      AtEnglishLanguage();
      ShapeEnglishLanguage();
      FitsEnglishLanguage();
    } else if i == 5 {
      AtEnglishLiterature();
      ShapeEnglishLiterature();
      FitsEnglishLiterature();
    } else if i == 6 {
      AtComputerScience();
      ShapeComputerScience();
      FitsComputerScience();
    } else if i == 7 {
      AtIct();
      ShapeIct();
      FitsIct();
    } else if i == 8 {
      AtBusiness();
      ShapeBusiness();
      FitsBusiness();
    } else if i == 9 {
      AtEconomics();
      ShapeEconomics();
      FitsEconomics();
    } else if i == 10 {
      AtAccounting();
      ShapeAccounting();
      FitsAccounting();
    } else if i == 11 {
      AtGeography();
      ShapeGeography();
      FitsGeography();
    } else if i == 12 {
      AtHistory();
      ShapeHistory();
      FitsHistory();
    } else if i == 13 {
      AtArabic();
      ShapeArabic();
      FitsArabic();
    } else if i == 14 {
      AtFrench();
      ShapeFrench();
      FitsFrench();
    } else if i == 15 {
      AtGerman();
      ShapeGerman();
      FitsGerman();
    } else if i == 16 {
      AtSpanish();
      ShapeSpanish();
      FitsSpanish();
    } else if i == 17 {
      AtSociology();
      ShapeSociology();
      FitsSociology();
    } else if i == 18 {
      AtHumanitiesSocialSciences();
      ShapeHumanitiesSocialSciences();
      FitsHumanitiesSocialSciences();
    } else if i == 19 {
      AtEnvironmentalManagement();
      ShapeEnvironmentalManagement();
      FitsEnvironmentalManagement();
    } else if i == 20 {
      AtPhysicalEducation();
      ShapePhysicalEducation();
      FitsPhysicalEducation();
    } else {
      AtTravelTourism();
      ShapeTravelTourism();
      FitsTravelTourism();
    }
  }

  // ---------------------------------------------------------------------------
  // What canonical_subject does with the table's own names
  // ---------------------------------------------------------------------------

  /** Two keys or aliases are equal once normalised only when they are the same words. */
  lemma NormSpellEqual(p: seq<string>, q: seq<string>)
    requires IsPhrase(p) && IsPhrase(q)
    ensures Norm(Spell(q)) == Spell(p) <==> q == p
  {
    SpellIsNormal(q);
    NormalIsFixed(Spell(q));
    if Spell(q) == Spell(p) {
      SpellInjective(p, q);
    }
  }

  /** Every key and alias of an entry is a phrase. */
  lemma PoolIsPhrases(e: SubjectEntry)
    requires WellFormed(e)
    ensures forall k :: 0 <= k < |Pool(e)| ==> IsPhrase(Pool(e)[k])
  {
    assert forall k :: 1 <= k < |Pool(e)| ==> Pool(e)[k] == e.aliases[k - 1];
  }

  /** A key or alias matches an entry's pool exactly when it is the key or one of the aliases. */
  lemma PoolMatchesSpelled(e: SubjectEntry, p: seq<string>)
    requires WellFormed(e) && IsPhrase(p)
    ensures PoolMatches(e, Spell(p)) <==> p in Pool(e)
  {
    if PoolMatches(e, Spell(p)) {
      PoolMatchesOnlyPool(e, p);
    }
    if p in Pool(e) {
      var k :| 0 <= k < |Pool(e)| && Pool(e)[k] == p;
      NormSpellEqual(p, p);
      assert NormAll(Pool(e))[k] == Spell(p);
    }
  }

  lemma PoolMatchesOnlyPool(e: SubjectEntry, p: seq<string>)
    requires WellFormed(e) && IsPhrase(p) && PoolMatches(e, Spell(p))
    ensures p in Pool(e)
  {
    var pool := Pool(e);
    var k :| 0 <= k < |pool| && NormAll(pool)[k] == Spell(p);
    PoolIsPhrases(e);
    NormSpellEqual(p, pool[k]);
  }

  /** At most one entry is the first to match a given string. */
  lemma FirstMatchUnique(table: seq<SubjectEntry>, i: int, i': int, t: string)
    requires IsFirstMatch(table, i, t) && IsFirstMatch(table, i', t)
    ensures i == i'
  {
  }

  /** Every entry's key, spelled out, is first matched by that entry. */
  lemma KeyIsFirstMatch(i: int)
    requires 0 <= i < |ValidSubjects|
    ensures IsFirstMatch(ValidSubjects, i, Spell(ValidSubjects[i].key))
  {
    var key := ValidSubjects[i].key;
    TableFacts(i);
    PoolMatchesSpelled(ValidSubjects[i], key);
    forall j | 0 <= j < i
      ensures !PoolMatches(ValidSubjects[j], Spell(key))
    {
      TableFacts(j);
      PoolMatchesSpelled(ValidSubjects[j], key);
    }
  }

  /** An input that normalises to entry `i`'s key canonicalises to entry `i`'s display name. */
  lemma CanonicalOfKey(raw: string, i: int)
    requires 0 <= i < |ValidSubjects| && Norm(raw) == Spell(ValidSubjects[i].key)
    ensures CanonicalSubject(raw) == Some(DisplayName(ValidSubjects[i]))
  {
    KeyIsFirstMatch(i);
    var r := CanonicalSubject(raw);
    assert r.Some?;
    var i' :| IsFirstMatch(ValidSubjects, i', Norm(raw)) && r.value == DisplayName(ValidSubjects[i']);
    FirstMatchUnique(ValidSubjects, i, i', Norm(raw));
  }

  /** A lower-case key and its re-cased words spell out strings that differ only in case. */
  lemma {:induction false} RecasesSpell(d: seq<string>, k: seq<string>)
    requires RecasesWords(d, k)
    ensures Recases(Spell(d), Spell(k))
    decreases |d|
  {
    if |d| > 1 {
      assert RecasesWords(d[1..], k[1..]) by {
        forall m | 0 <= m < |d| - 1
          ensures Recases(d[1..][m], k[1..][m])
        {
          assert d[1..][m] == d[m + 1] && k[1..][m] == k[m + 1];
        }
      }
      RecasesSpell(d[1..], k[1..]);
      var a, b := d[0] + [' '], k[0] + [' '];
      assert Recases(a, b) by {
        assert Recases(d[0], k[0]);
      }
      RecasesAppend(a, Spell(d[1..]), b, Spell(k[1..]));
    } else if |d| == 1 {
      assert Recases(d[0], k[0]);
    }
  }

  lemma RecasesAppend(a: string, b: string, c: string, e: string)
    requires Recases(a, c) && Recases(b, e)
    ensures Recases(a + b, c + e)
  {
    forall i | 0 <= i < |a + b|
      ensures LowerChar((a + b)[i]) == (c + e)[i]
    {
      if i >= |a| {
        assert (a + b)[i] == b[i - |a|] && (c + e)[i] == e[i - |c|];
      }
    }
  }

  /** The display name of an entry normalises back to its key. */
  lemma DisplayNormalisesToKey(i: int)
    requires 0 <= i < |ValidSubjects|
    ensures Norm(DisplayName(ValidSubjects[i])) == Spell(ValidSubjects[i].key)
  {
    var e := ValidSubjects[i];
    TableFacts(i);
    RecasesSpell(DisplayWords(e), e.key);
    SpellIsNormal(e.key);
    RecasedNormalises(DisplayName(e), Spell(e.key));
  }

  /** Every display name `canonical_subject` can return canonicalises to itself. */
  lemma CanonicalOfDisplay(i: int)
    requires 0 <= i < |ValidSubjects|
    ensures CanonicalSubject(DisplayName(ValidSubjects[i])) == Some(DisplayName(ValidSubjects[i]))
  {
    DisplayNormalisesToKey(i);
    CanonicalOfKey(DisplayName(ValidSubjects[i]), i);
  }

  /** `canonical_subject` is idempotent on its results. */
  lemma CanonicalIdempotent(raw: string)
    requires CanonicalSubject(raw).Some?
    ensures CanonicalSubject(CanonicalSubject(raw).value) == CanonicalSubject(raw)
  {
    var i :| IsFirstMatch(ValidSubjects, i, Norm(raw)) && CanonicalSubject(raw).value == DisplayName(ValidSubjects[i]);
    CanonicalOfDisplay(i);
  }

  /** No key or alias is empty, so the empty label matches no entry. */
  lemma EmptyMatchesNoPool(e: SubjectEntry)
    requires WellFormed(e)
    ensures !PoolMatches(e, [])
  {
    PoolIsPhrases(e);
    forall k | 0 <= k < |Pool(e)|
      ensures NormAll(Pool(e))[k] != []
    {
      SpellIsNormal(Pool(e)[k]);
      NormalIsFixed(Spell(Pool(e)[k]));
    }
  }

  /** `canonical_subject("")` is `None`. */
  lemma CanonicalOfEmpty()
    ensures CanonicalSubject([]) == None
  {
    forall i | 0 <= i < |ValidSubjects|
      ensures !PoolMatches(ValidSubjects[i], Norm([]))
    {
      TableFacts(i);
      EmptyMatchesNoPool(ValidSubjects[i]);
    }
  }

  /** A name `canonical_subject` returns is never empty, so Python always treats it as true. */
  lemma CanonicalNonEmpty(raw: string)
    requires CanonicalSubject(raw).Some?
    ensures CanonicalSubject(raw).value != []
  {
    var i :| IsFirstMatch(ValidSubjects, i, Norm(raw)) && CanonicalSubject(raw).value == DisplayName(ValidSubjects[i]);
    DisplayNormalisesToKey(i);
    TableFacts(i);
    SpellIsNormal(ValidSubjects[i].key);
    assert Norm([]) == [];
  }

  // ---------------------------------------------------------------------------
  // CODE_TO_SUBJECT against the table
  // ---------------------------------------------------------------------------

  /** The label `CODE_TO_SUBJECT` gives `code` is the display name of entry `i`. */
  predicate LabelIsDisplay(code: string, i: int)
    requires code in CodeToSubject
  {
    0 <= i < |ValidSubjects| && CodeToSubject[code] == DisplayWords(ValidSubjects[i])
  }

  lemma LabelMth()
    ensures LabelIsDisplay("MTH", 0)
  {
    assert ValidSubjects[0] == Math;
  }

  lemma LabelEnl()
    ensures LabelIsDisplay("ENL", 4)
  {
    assert ValidSubjects[4] == EnglishLanguage;
  }

  lemma LabelEnlit()
    ensures LabelIsDisplay("ENLIT", 5)
  {
    assert ValidSubjects[5] == EnglishLiterature;
  }

  lemma LabelBio()
    ensures LabelIsDisplay("BIO", 3)
  {
    assert ValidSubjects[3] == Biology;
  }

  lemma LabelChe()
    ensures LabelIsDisplay("CHE", 2)
  {
    assert ValidSubjects[2] == Chemistry;
  }

  lemma LabelPhy()
    ensures LabelIsDisplay("PHY", 1)
  {
    assert ValidSubjects[1] == Physics;
  }

  lemma LabelHum()
    ensures LabelIsDisplay("HUM", 18)
  {
    assert ValidSubjects[18] == HumanitiesSocialSciences;
  }

  lemma LabelBus()
    ensures LabelIsDisplay("BUS", 8)
  {
    assert ValidSubjects[8] == Business;
  }

  lemma LabelEco()
    ensures LabelIsDisplay("ECO", 9)
  {
    assert ValidSubjects[9] == Economics;
  }

  lemma LabelAcc()
    ensures LabelIsDisplay("ACC", 10)
  {
    assert ValidSubjects[10] == Accounting;
  }

  lemma LabelSoc()
    ensures LabelIsDisplay("SOC", 17)
  {
    assert ValidSubjects[17] == Sociology;
  }

  lemma LabelFr()
    ensures LabelIsDisplay("FR", 14)
  {
    assert ValidSubjects[14] == French;
  }

  lemma LabelDe()
    ensures LabelIsDisplay("DE", 15)
  {
    assert ValidSubjects[15] == German;
  }

  lemma LabelAr()
    ensures LabelIsDisplay("AR", 13)
  {
    assert ValidSubjects[13] == Arabic;
  }

  lemma LabelIct()
    ensures LabelIsDisplay("ICT", 7)
  {
    assert ValidSubjects[7] == Ict;
  }

  lemma LabelCs()
    ensures LabelIsDisplay("CS", 6)
  {
    assert ValidSubjects[6] == ComputerScience;
  }

  lemma LabelEm()
    ensures LabelIsDisplay("EM", 19)
  {
    assert ValidSubjects[19] == EnvironmentalManagement;
  }

  lemma LabelPe()
    ensures LabelIsDisplay("PE", 20)
  {
    assert ValidSubjects[20] == PhysicalEducation;
  }

  lemma LabelTt()
    ensures LabelIsDisplay("TT", 21)
  {
    assert ValidSubjects[21] == TravelTourism;
  }

  /** Every label of `CODE_TO_SUBJECT` is the display name of some entry. */
  lemma CodeLabelIsDisplay(code: string)
    requires code in CodeToSubject
    ensures exists i :: LabelIsDisplay(code, i)
  {
    if code == "MTH" {
      LabelMth();
    } else if code == "ENL" {
      LabelEnl();
    } else if code == "ENLIT" {
      LabelEnlit();
    } else if code == "BIO" {
      LabelBio();
    } else if code == "CHE" {
      LabelChe();
    } else if code == "PHY" {
      LabelPhy();
    } else if code == "HUM" {
      LabelHum();
    } else if code == "BUS" {
      LabelBus();
    } else if code == "ECO" {
      LabelEco();
    } else if code == "ACC" {
      LabelAcc();
    } else if code == "SOC" {
      LabelSoc();
    } else if code == "FR" {
      LabelFr();
    } else if code == "DE" {
      LabelDe();
    } else if code == "AR" {
      LabelAr();
    } else if code == "ICT" {
      LabelIct();
    } else if code == "CS" {
      LabelCs();
    } else if code == "EM" {
      LabelEm();
    } else if code == "PE" {
      LabelPe();
    } else {
      assert code == "TT";
      LabelTt();
    }
  }

  /** Every label of `CODE_TO_SUBJECT` canonicalises to itself. */
  lemma CodeLabelCanonical(code: string)
    requires code in CodeToSubject
    ensures CanonicalSubject(SubjectOfCode(code)) == Some(SubjectOfCode(code))
  {
    CodeLabelIsDisplay(code);
    var i :| LabelIsDisplay(code, i);
    CanonicalOfDisplay(i);
  }
}
