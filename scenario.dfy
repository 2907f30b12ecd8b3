/** The city lookup decided for the two states of the worked example below. */
module ScenarioCities {

  import opened Strings
  import opened Loader

  /** A key with a character that, lower-cased, occurs nowhere in the lower-cased state does not match. */
  lemma AbsentChar(key: string, state: string, k: nat)
    requires k < |key| && forall i :: 0 <= i < |state| ==> LowerChar(state[i]) != LowerChar(key[k])
    ensures !KeyMatches(key, state)
  {
    ContainsIff(Lower(state), Lower(key));
    LowerSpec(state);
    LowerSpec(key);
  }

  /** A state free of glyphs and surrounding whitespace is left as it is. */
  lemma AlreadyClean(s: string)
    requires Glyph !in s && s != [] && !IsSpace(s[0]) && !IsSpace(s[|s| - 1])
    ensures CleanState(s) == s
  {
    RemoveCharAbsent(s, Glyph);
    LStripNoLead(s);
    RStripNoTrail(s);
  }

  /** The first seven entries of the city table, which decide the example's two states. */
  predicate SharesPrefix(m: CityMap)
  {
    && |m| >= 7
    && m[0].0 == "Andhra" && m[1].0 == "Maharashtra"
    && m[2] == ("Uttar", "Chișinău") && m[3].0 == "Gujarat"
    && m[4].0 == "Himachal" && m[5].0 == "Madhya"
    && m[6] == ("Karnataka", "Bălți")
  }

  lemma AndhraInUttarPradesh()
    ensures !KeyMatches("Andhra", "Uttar Pradesh")
  {
    AbsentChar("Andhra", "Uttar Pradesh", 1);
  }

  lemma MaharashtraInUttarPradesh()
    ensures !KeyMatches("Maharashtra", "Uttar Pradesh")
  {
    AbsentChar("Maharashtra", "Uttar Pradesh", 0);
  }

  lemma UttarInUttarPradesh()
    ensures KeyMatches("Uttar", "Uttar Pradesh")
  {
    PrefixMatch("Uttar", "Uttar Pradesh");
  }

  lemma AndhraInKarnataka()
    ensures !KeyMatches("Andhra", "Karnataka")
  {
    AbsentChar("Andhra", "Karnataka", 3);
  }

  lemma MaharashtraInKarnataka()
    ensures !KeyMatches("Maharashtra", "Karnataka")
  {
    AbsentChar("Maharashtra", "Karnataka", 0);
  }

  lemma UttarInKarnataka()
    ensures !KeyMatches("Uttar", "Karnataka")
  {
    AbsentChar("Uttar", "Karnataka", 0);
  }

  lemma GujaratInKarnataka()
    ensures !KeyMatches("Gujarat", "Karnataka")
  {
    AbsentChar("Gujarat", "Karnataka", 0);
  }

  lemma HimachalInKarnataka()
    ensures !KeyMatches("Himachal", "Karnataka")
  {
    AbsentChar("Himachal", "Karnataka", 0);
  }

  lemma MadhyaInKarnataka()
    ensures !KeyMatches("Madhya", "Karnataka")
  {
    AbsentChar("Madhya", "Karnataka", 0);
  }

  lemma KarnatakaInKarnataka()
    ensures KeyMatches("Karnataka", "Karnataka")
  {
    PrefixMatch("Karnataka", "Karnataka");
  }

  lemma UttarPradeshDecided(m: CityMap, s: string)
    requires SharesPrefix(m) && s == "Uttar Pradesh"
    ensures !KeyMatches(m[0].0, s) && !KeyMatches(m[1].0, s) && KeyMatches(m[2].0, s)
  {
    AndhraInUttarPradesh();
    MaharashtraInUttarPradesh();
    UttarInUttarPradesh();
  }

  lemma UttarPradesh(m: CityMap, s: string)
    requires SharesPrefix(m) && s == "Uttar Pradesh"
    ensures CityOf(m, s) == "Chișinău"
  {
    UttarPradeshDecided(m, s);
    CityOfFirstMatch(m, s, 2);
  }

  lemma KarnatakaEarly(m: CityMap, s: string)
    requires SharesPrefix(m) && s == "Karnataka"
    ensures !KeyMatches(m[0].0, s) && !KeyMatches(m[1].0, s) && !KeyMatches(m[2].0, s)
  {
    AndhraInKarnataka();
    MaharashtraInKarnataka();
    UttarInKarnataka();
  }

  lemma KarnatakaLate(m: CityMap, s: string)
    requires SharesPrefix(m) && s == "Karnataka"
    ensures !KeyMatches(m[3].0, s) && !KeyMatches(m[4].0, s) && !KeyMatches(m[5].0, s)
    ensures KeyMatches(m[6].0, s)
  {
    GujaratInKarnataka();
    HimachalInKarnataka();
    MadhyaInKarnataka();
    KarnatakaInKarnataka();
  }

  lemma Karnataka(m: CityMap, s: string)
    requires SharesPrefix(m) && s == "Karnataka"
    ensures CityOf(m, s) == "Bălți"
  {
    KarnatakaEarly(m, s);
    KarnatakaLate(m, s);
    CityOfFirstMatch(m, s, 6);
  }

}

/**
 * A worked example of the whole load: three rows, one with an Amount that
 * does not parse and one with Orders that do not parse.
 */
module Scenario {

  import opened ScenarioCities

  import opened Wrappers
  import opened Strings
  import opened Grouping
  import opened Loader
  import opened Reports

  const UttarRow := RawRow("Uttar Pradesh", "F", "26-35", "Food", "P1", "1001", "Anna", Some(100), Some(1))
  const ChisinauRow := RawRow("Chișinău", "M", "18-25", "Auto", "P2", "1002", "Ion", None, Some(2))
  const KarnatakaRow := RawRow("Karnataka", "F", "36-45", "Food", "P3", "1003", "Maria", Some(50), None)

  const UttarRecord := Record("Uttar Pradesh", "Chișinău", "F", "26-35", "Food", "P1", "1001", "Anna", 100, 1)
  const KarnatakaRecord := Record("Karnataka", "Bălți", "F", "36-45", "Food", "P3", "1003", "Maria", 50, 0)

  lemma MoldovaMapPrefix()
    ensures SharesPrefix(MoldovaMap)
  {
  }

  lemma UttarRowLoaded(m: CityMap)
    requires SharesPrefix(m)
    ensures Normalize(m, UttarRow) == Some(UttarRecord)
  {
    AlreadyClean("Uttar Pradesh");
    UttarPradesh(m, "Uttar Pradesh");
  }

  lemma KarnatakaRowLoaded(m: CityMap)
    requires SharesPrefix(m)
    ensures Normalize(m, KarnatakaRow) == Some(KarnatakaRecord)
  {
    AlreadyClean("Karnataka");
    Karnataka(m, "Karnataka");
  }

  /** Loading three rows of which the middle one is dropped. */
  lemma LoadMiddleDropped(m: CityMap, u: RawRow, c: RawRow, k: RawRow, a: Record, b: Record)
    requires Normalize(m, u) == Some(a) && Normalize(m, c) == None && Normalize(m, k) == Some(b)
    ensures Load(m, [u, c, k]) == [a, b]
  {
    assert [u][..0] == [];
    assert Load(m, [u]) == [a];
    assert [u, c][..1] == [u];
    assert Load(m, [u, c]) == [a];
    assert [u, c, k][..2] == [u, c];
  }

  lemma ExampleOver(m: CityMap, raw: seq<RawRow>)
    requires SharesPrefix(m) && raw == [UttarRow, ChisinauRow, KarnatakaRow]
    ensures Load(m, raw) == [UttarRecord, KarnatakaRecord]
  {
    UttarRowLoaded(m);
    KarnatakaRowLoaded(m);
    LoadMiddleDropped(m, UttarRow, ChisinauRow, KarnatakaRow, UttarRecord, KarnatakaRecord);
  }

  lemma ExampleTotals(rows: seq<Record>)
    requires rows == [UttarRecord, KarnatakaRecord]
    ensures KpiSummary(rows).revenue == 150
    ensures KpiSummary(rows).orders == 1
  {
    assert rows[1..][1..] == [];
    assert Total(rows[1..], AmountOf) == 50;
    assert Total(rows[1..], OrdersOf) == 0;
  }

  /**
   * Of the rows ("Uttar Pradesh", Amount 100, Orders 1), ("Chișinău",
   * unparseable Amount, Orders 2) and ("Karnataka", Amount 50, unparseable
   * Orders), the second is dropped; the others are kept in order as
   * Chișinău and Bălți, the missing Orders become 0, and the KPI totals are
   * revenue 150 and 1 order.
   */
  lemma ExampleLoad(raw: seq<RawRow>)
    requires raw == [UttarRow, ChisinauRow, KarnatakaRow]
    ensures Load(MoldovaMap, raw) == [UttarRecord, KarnatakaRecord]
    ensures KpiSummary(Load(MoldovaMap, raw)).revenue == 150
    ensures KpiSummary(Load(MoldovaMap, raw)).orders == 1
  {
    MoldovaMapPrefix();
    ExampleOver(MoldovaMap, raw);
    ExampleTotals(Load(MoldovaMap, raw));
  }
}
