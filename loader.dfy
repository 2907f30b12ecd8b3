/**
 * `load_data`: the cleaning pipeline that turns the rows of `products.csv`
 * into the dashboard's table. The CSV reader itself is not modelled: a raw
 * row arrives with its text cells already decoded and its two numeric cells
 * already run through `pd.to_numeric(..., errors="coerce")`, so that a cell
 * that did not parse is `None`.
 */
module Loader {

  import opened Wrappers
  import opened Seqs
  import opened Strings

  /** One row of the CSV file before cleaning. */
  datatype RawRow = RawRow(
    state: string,
    gender: string,
    ageGroup: string,
    productCategory: string,
    productId: string,
    userId: string,
    custName: string,
    amount: Option<int>,
    orders: Option<int>)

  /** One row of the loaded table. */
  datatype Record = Record(
    state: string,
    city: string,
    gender: string,
    ageGroup: string,
    productCategory: string,
    productId: string,
    userId: string,
    custName: string,
    amount: int,
    orders: int)

  /** The Unicode replacement character that a lossy decode leaves behind. */
  const Glyph: char := '\U{FFFD}'

  /** An ordered lookup table of (substring, city) pairs. */
  type CityMap = seq<(string, string)>

  /** The table of Indian state names and the Moldovan towns they are renamed to, in definition order. */
  const MoldovaMap: CityMap := [
    ("Andhra", "Soroca"),
    ("Maharashtra", "Orhei"),
    ("Uttar", "Chișinău"),
    ("Gujarat", "Ungheni"),
    ("Himachal", "Comrat"),
    ("Madhya", "Edineț"),
    ("Karnataka", "Bălți"),
    ("Delhi", "Cahul"),
    ("Bihar", "Hîncești"),
    ("Kerala", "Căușeni"),
    ("Punjab", "Florești"),
    ("Rajasthan", "Drochia"),
    ("Telangana", "Nisporeni"),
    ("Haryana", "Ștefan Vodă"),
    ("Jharkhand", "Leova"),
    ("Odisha", "Rîbnița"),
    ("Tamil", "Basarabeasca"),
    ("West", "Criuleni"),
    ("Assam", "Glodeni"),
    ("Chhattisgarh", "Cimișlia"),
    ("Goa", "Rezina"),
    ("Uttarakhand", "Ocnița"),
    ("Tripura", "Sângerei"),
    ("Nagaland", "Telenești")
  ]

  // ---------------------------------------------------------------------------
  // Cleaning the State column
  // ---------------------------------------------------------------------------

  /** Every replacement glyph removed, then surrounding whitespace stripped. */
  function CleanState(s: string): string
  {
    Strip(RemoveChar(s, Glyph))
  }

  /**
   * A cleaned state holds no replacement glyph and has no surrounding
   * whitespace; it is a contiguous stretch `t[i..j]` of the glyph-free text
   * `t`, and what is cut off on either side is whitespace.
   */
  lemma CleanStateSpec(s: string) returns (i: nat, j: nat)
    ensures Glyph !in CleanState(s)
    ensures CleanState(s) != [] ==>
              !IsSpace(CleanState(s)[0]) && !IsSpace(CleanState(s)[|CleanState(s)| - 1])
    ensures i <= j <= |RemoveChar(s, Glyph)| && CleanState(s) == RemoveChar(s, Glyph)[i..j]
    ensures AllSpace(RemoveChar(s, Glyph)[..i]) && AllSpace(RemoveChar(s, Glyph)[j..])
  {
    var t := RemoveChar(s, Glyph);
    RemoveCharSpec(s, Glyph);
    i, j := StripSpec(t);
    assert Glyph !in t[i..j] by {
      forall k | 0 <= k < j - i
        ensures t[i..j][k] != Glyph
      {
        assert t[i..j][k] == t[i + k];
      }
    }
  }

  /** Cleaning an already clean state changes nothing. */
  lemma CleanStateIdempotent(s: string)
    ensures CleanState(CleanState(s)) == CleanState(s)
  {
    var c := CleanState(s);
    var _, _ := CleanStateSpec(s);
    RemoveCharAbsent(c, Glyph);
    LStripNoLead(c);
    RStripNoTrail(c);
  }

  lemma {:induction false} RemoveCharAbsent(s: string, c: char)
    requires c !in s
    ensures RemoveChar(s, c) == s
  {
    if s != [] {
      assert s[0] != c;
      RemoveCharAbsent(s[1..], c);
    }
  }

  lemma LStripNoLead(s: string)
    requires s != [] ==> !IsSpace(s[0])
    ensures LStrip(s) == s
  {
  }

  lemma RStripNoTrail(s: string)
    requires s != [] ==> !IsSpace(s[|s| - 1])
    ensures RStrip(s) == s
  {
  }

  // ---------------------------------------------------------------------------
  // replace_to_moldova: the first key that occurs in the state wins
  // ---------------------------------------------------------------------------

  /** The lower-cased key occurs in the lower-cased state. */
  predicate KeyMatches(key: string, state: string)
  {
    Contains(Lower(state), Lower(key))
  }

  /** The value of the first key, in table order, that occurs in `state`; `state` itself when none does. */
  function CityOf(mapping: CityMap, state: string): string
  {
    if mapping == [] then state
    else if KeyMatches(mapping[0].0, state) then mapping[0].1
    else CityOf(mapping[1..], state)
  }

  /** When entry `k` is the first entry whose key occurs in `state`, the city is that entry's value. */
  lemma {:induction false} CityOfFirstMatch(mapping: CityMap, state: string, k: nat)
    requires k < |mapping| && KeyMatches(mapping[k].0, state)
    requires forall j :: 0 <= j < k ==> !KeyMatches(mapping[j].0, state)
    ensures CityOf(mapping, state) == mapping[k].1
  {
    if k > 0 {
      assert !KeyMatches(mapping[0].0, state);
      CityOfFirstMatch(mapping[1..], state, k - 1);
    }
  }

  /** When no key occurs in `state`, the state is returned unchanged. */
  lemma {:induction false} CityOfNoMatch(mapping: CityMap, state: string)
    requires forall j :: 0 <= j < |mapping| ==> !KeyMatches(mapping[j].0, state)
    ensures CityOf(mapping, state) == state
  {
    if mapping != [] {
      assert !KeyMatches(mapping[0].0, state);
      CityOfNoMatch(mapping[1..], state);
    }
  }

  /** The city is either the state itself or the value of some entry whose key occurs in the state. */
  lemma {:induction false} CityOfRange(mapping: CityMap, state: string)
    ensures CityOf(mapping, state) == state
            || exists k :: 0 <= k < |mapping| && KeyMatches(mapping[k].0, state)
                           && CityOf(mapping, state) == mapping[k].1
  {
    if mapping != [] && !KeyMatches(mapping[0].0, state) {
      CityOfRange(mapping[1..], state);
      if CityOf(mapping, state) != state {
        var k :| 0 <= k < |mapping[1..]| && KeyMatches(mapping[1..][k].0, state)
                 && CityOf(mapping[1..], state) == mapping[1..][k].1;
        assert mapping[k + 1] == mapping[1..][k];
      }
    }
  }

  /** `replace_to_moldova`: a loop over the table that returns at the first matching key. */
  method ReplaceToMoldova(state: string, mapping: CityMap) returns (city: string)
    ensures city == CityOf(mapping, state)
  {
    for i := 0 to |mapping|
      invariant forall j :: 0 <= j < i ==> !KeyMatches(mapping[j].0, state)
    {
      var (key, newCity) := mapping[i];
      if Contains(Lower(state), Lower(key)) {
        CityOfFirstMatch(mapping, state, i);
        return newCity;
      }
    }
    CityOfNoMatch(mapping, state);
    return state;
  }

  /**
   * An entry whose lower-cased key contains the lower-cased key of an earlier
   * entry never decides the city: whenever it matches, the earlier one does too.
   */
  lemma {:induction false} ShadowedEntry(mapping: CityMap, state: string, early: nat, late: nat)
    requires early < late < |mapping|
    requires Contains(Lower(mapping[late].0), Lower(mapping[early].0))
    requires KeyMatches(mapping[late].0, state)
    ensures exists k :: 0 <= k <= early && KeyMatches(mapping[k].0, state)
                        && CityOf(mapping, state) == mapping[k].1
  {
    ContainsTransitive(Lower(state), Lower(mapping[late].0), Lower(mapping[early].0));
    FirstMatchExists(mapping, state, early);
  }

  /** If entry `n` matches, some entry at or before `n` is the first match. */
  lemma {:induction false} FirstMatchExists(mapping: CityMap, state: string, n: nat)
    requires n < |mapping| && KeyMatches(mapping[n].0, state)
    ensures exists k :: 0 <= k <= n && KeyMatches(mapping[k].0, state)
                        && CityOf(mapping, state) == mapping[k].1
  {
    if KeyMatches(mapping[0].0, state) {
      assert CityOf(mapping, state) == mapping[0].1;
    } else {
      FirstMatchExists(mapping[1..], state, n - 1);
      var k :| 0 <= k <= n - 1 && KeyMatches(mapping[1..][k].0, state)
               && CityOf(mapping[1..], state) == mapping[1..][k].1;
      assert mapping[k + 1] == mapping[1..][k];
    }
  }

  /** A substring of a substring is a substring. */
  lemma {:induction false} ContainsTransitive(a: string, b: string, c: string)
    requires Contains(a, b) && Contains(b, c)
    ensures Contains(a, c)
  {
    ContainsIff(a, b);
    ContainsIff(b, c);
    var i :| OccursAt(a, b, i);
    var j :| OccursAt(b, c, j);
    forall k | 0 <= k < |c|
      ensures a[i + j + k] == c[k]
    {
      assert a[i..i + |b|][j + k] == b[j + k];
      assert b[j..j + |c|][k] == c[k];
    }
    assert a[i + j..i + j + |c|] == c;
    assert OccursAt(a, c, i + j);
    ContainsIff(a, c);
  }

  /**
   * The shape of the table that the "Uttarakhand" argument needs: entry 2 has
   * key "Uttar", entry 21 has key "Uttarakhand", and entry 21's city differs
   * from the cities of entries 0 to 2.
   */
  predicate UttarLayout(m: CityMap)
  {
    && |m| > 21 && m[2].0 == "Uttar" && m[21].0 == "Uttarakhand"
    && m[21].1 != m[0].1 && m[21].1 != m[1].1 && m[21].1 != m[2].1
  }

  /** The city table has that shape, with "Chișinău" for "Uttar" and "Ocnița" for "Uttarakhand". */
  lemma MoldovaUttarLayout()
    ensures UttarLayout(MoldovaMap)
    ensures MoldovaMap[2].1 == "Chișinău" && MoldovaMap[21].1 == "Ocnița"
  {
  }

  /** A key that the state starts with matches it. */
  lemma PrefixMatch(key: string, state: string)
    requires |key| <= |state| && state[..|key|] == key
    ensures KeyMatches(key, state)
  {
    LowerSpec(state);
    LowerSpec(key);
    assert Lower(state)[..|key|] == Lower(key);
  }

  /** Wherever the "Uttarakhand" key matches, the "Uttar" key matches too. */
  lemma UttarKeys(m: CityMap)
    requires UttarLayout(m)
    ensures Contains(Lower(m[21].0), Lower(m[2].0))
  {
    assert "Uttarakhand"[..5] == "Uttar";
    PrefixMatch(m[2].0, m[21].0);
  }

  /**
   * Because "Uttar" precedes "Uttarakhand" in the table, a state that the
   * "Uttarakhand" key matches is never renamed by the "Uttarakhand" entry: it gets the
   * "Uttar" entry's city unless one of the two keys before "Uttar" also
   * occurs in it.
   */
  lemma UttarakhandShadowed(m: CityMap, state: string)
    requires UttarLayout(m) && KeyMatches(m[21].0, state)
    ensures CityOf(m, state) in {m[0].1, m[1].1, m[2].1}
    ensures !KeyMatches(m[0].0, state) && !KeyMatches(m[1].0, state) ==> CityOf(m, state) == m[2].1
  {
    UttarKeys(m);
    ShadowedEntry(m, state, 2, 21);
    var k :| 0 <= k <= 2 && KeyMatches(m[k].0, state) && CityOf(m, state) == m[k].1;
    assert k == 0 || k == 1 || k == 2;
  }

  /** No state that the "Uttarakhand" key matches is renamed to the "Uttarakhand" entry's city. */
  lemma UttarakhandNeverOcnita(m: CityMap, state: string)
    requires UttarLayout(m) && KeyMatches(m[21].0, state)
    ensures CityOf(m, state) != m[21].1
  {
    UttarakhandShadowed(m, state);
  }

  // ---------------------------------------------------------------------------
  // Numeric coercion and the whole load
  // ---------------------------------------------------------------------------

  /**
   * One raw row after every cleaning step: `None` when its Amount did not
   * parse (the row is dropped), otherwise the record with the cleaned state,
   * the derived city and Orders defaulted to 0.
   */
  function Normalize(mapping: CityMap, row: RawRow): Option<Record>
  {
    match row.amount
    case None => None
    case Some(amount) =>
      var state := CleanState(row.state);
      Some(Record(state, CityOf(mapping, state), row.gender, row.ageGroup,
                  row.productCategory, row.productId, row.userId, row.custName,
                  amount, row.orders.GetOr(0)))
  }

  /** The loaded table: the normalised rows that were not dropped, in file order. */
  function Load(mapping: CityMap, raw: seq<RawRow>): seq<Record>
  {
    if raw == [] then []
    else
      var init := Load(mapping, raw[..|raw| - 1]);
      match Normalize(mapping, raw[|raw| - 1])
      case None => init
      case Some(r) => init + [r]
  }

  /** The positions of the rows whose Amount parsed, in ascending order. */
  function Kept(raw: seq<RawRow>): seq<nat>
  {
    if raw == [] then []
    else if raw[|raw| - 1].amount.Some? then Kept(raw[..|raw| - 1]) + [|raw| - 1]
    else Kept(raw[..|raw| - 1])
  }

  /** The kept positions are in range, strictly increasing, and exactly those whose Amount parsed. */
  lemma {:induction false} KeptSpec(raw: seq<RawRow>)
    ensures forall k :: 0 <= k < |Kept(raw)| ==> Kept(raw)[k] < |raw|
    ensures forall k, l :: 0 <= k < l < |Kept(raw)| ==> Kept(raw)[k] < Kept(raw)[l]
    ensures forall i :: 0 <= i < |raw| ==> (i in Kept(raw) <==> raw[i].amount.Some?)
  {
    if raw != [] {
      var init := raw[..|raw| - 1];
      KeptSpec(init);
      assert forall i :: 0 <= i < |init| ==> raw[i] == init[i];
    }
  }

  lemma {:induction false} LoadKept(mapping: CityMap, raw: seq<RawRow>)
    ensures |Load(mapping, raw)| == |Kept(raw)|
    ensures forall k :: 0 <= k < |Kept(raw)| ==>
              Kept(raw)[k] < |raw| && Normalize(mapping, raw[Kept(raw)[k]]) == Some(Load(mapping, raw)[k])
  {
    if raw != [] {
      var init := raw[..|raw| - 1];
      LoadKept(mapping, init);
      assert forall i :: 0 <= i < |init| ==> raw[i] == init[i];
    }
  }

  /**
   * The loaded table holds, in their original order, exactly the rows whose
   * Amount parsed: record `k` is the normalisation of raw row `Kept(raw)[k]`,
   * the kept positions are strictly increasing, and a position is kept
   * exactly when its Amount parsed.
   */
  lemma {:induction false} LoadSpec(mapping: CityMap, raw: seq<RawRow>)
    ensures |Load(mapping, raw)| == |Kept(raw)|
    ensures forall k :: 0 <= k < |Kept(raw)| ==> Kept(raw)[k] < |raw|
    ensures forall k, l :: 0 <= k < l < |Kept(raw)| ==> Kept(raw)[k] < Kept(raw)[l]
    ensures forall i :: 0 <= i < |raw| ==> (i in Kept(raw) <==> raw[i].amount.Some?)
    ensures forall k :: 0 <= k < |Kept(raw)| ==>
              Normalize(mapping, raw[Kept(raw)[k]]) == Some(Load(mapping, raw)[k])
  {
    KeptSpec(raw);
    LoadKept(mapping, raw);
  }

  /**
   * Every loaded record carries its row's parsed Amount, its Orders or 0 when
   * those did not parse, its cleaned State and the city derived from it.
   */
  lemma LoadedRecord(mapping: CityMap, raw: seq<RawRow>, k: nat) returns (i: nat)
    requires k < |Load(mapping, raw)|
    ensures k < |Kept(raw)| && i == Kept(raw)[k] && i < |raw|
    ensures var row, r := raw[i], Load(mapping, raw)[k];
            && row.amount == Some(r.amount)
            && (row.orders.None? ==> r.orders == 0)
            && (row.orders.Some? ==> r.orders == row.orders.value)
            && r.state == CleanState(row.state)
            && r.city == CityOf(mapping, r.state)
  {
    LoadSpec(mapping, raw);
    i := Kept(raw)[k];
  }

  /** `load_data` as the source runs it: a pass that cleans the State column, a pass that derives City, and one pass that drops rows without an Amount and fills missing Orders. */
  method LoadData(mapping: CityMap, raw: seq<RawRow>) returns (table: seq<Record>)
    ensures table == Load(mapping, raw)
  {
    // Clean every State: remove the glyph, then strip whitespace
    var states: seq<string> := [];
    for i := 0 to |raw|
      invariant |states| == i
      invariant forall j :: 0 <= j < i ==> states[j] == CleanState(raw[j].state)
    {
      states := states + [Strip(RemoveChar(raw[i].state, Glyph))];
    }
    // Derive every City from its cleaned State
    var cities: seq<string> := [];
    for i := 0 to |raw|
      invariant |cities| == i
      invariant forall j :: 0 <= j < i ==> cities[j] == CityOf(mapping, states[j])
    {
      var city := ReplaceToMoldova(states[i], mapping);
      cities := cities + [city];
    }
    // Drop the rows whose Amount did not parse; give the rest Orders 0 where it did not parse
    table := [];
    for i := 0 to |raw|
      invariant table == Load(mapping, raw[..i])
    {
      assert raw[..i + 1][..i] == raw[..i];
      var row := raw[i];
      if row.amount.Some? {
        var orders := if row.orders.Some? then row.orders.value else 0;
        table := table + [Record(states[i], cities[i], row.gender, row.ageGroup,
                                 row.productCategory, row.productId, row.userId,
                                 row.custName, row.amount.value, orders)];
      }
    }
    assert raw[..|raw|] == raw;
  }
}
