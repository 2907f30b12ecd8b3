/**
 * The sidebar filter block: four multiselects (City, Gender, Age Group,
 * Product_Category), each narrowing the working table with `isin` when the
 * user picked at least one value.
 */
module Filters {

  import opened Seqs
  import opened Loader

  /** The four columns a sidebar multiselect filters on. */
  datatype Field = City | Gender | AgeGroup | ProductCategory

  function FieldOf(r: Record, f: Field): string
  {
    match f
    case City => r.city
    case Gender => r.gender
    case AgeGroup => r.ageGroup
    case ProductCategory => r.productCategory
  }

  /** The values picked in each multiselect, in the order the user picked them. */
  datatype Selection = Selection(
    city: seq<string>,
    gender: seq<string>,
    age: seq<string>,
    category: seq<string>)

  const NoSelection := Selection([], [], [], [])

  /** The row's value in column `f` is one of `values`. */
  function IsIn(f: Field, values: seq<string>): Record -> bool
  {
    (r: Record) => FieldOf(r, f) in values
  }

  /** The rows whose value in column `f` is one of `values`, in table order. */
  function Where(rows: seq<Record>, f: Field, values: seq<string>): seq<Record>
  {
    Filter(IsIn(f, values), rows)
  }

  /** A constraint with no picked value lets every row through. */
  predicate Accepts(values: seq<string>, v: string)
  {
    |values| == 0 || v in values
  }

  /** A row satisfies every non-empty selection. */
  predicate Admits(sel: Selection, r: Record)
  {
    && Accepts(sel.city, r.city)
    && Accepts(sel.gender, r.gender)
    && Accepts(sel.age, r.ageGroup)
    && Accepts(sel.category, r.productCategory)
  }

  function AdmittedBy(sel: Selection): Record -> bool
  {
    (r: Record) => Admits(sel, r)
  }

  /** The working subset: the rows admitted by every active filter, in table order. */
  function Filtered(rows: seq<Record>, sel: Selection): seq<Record>
  {
    Filter(AdmittedBy(sel), rows)
  }

  /** Like `Admits`, restricted to the constraints on the first `n` fields (City, Gender, Age Group, Product_Category). */
  predicate AdmitsFirst(sel: Selection, n: nat, r: Record)
  {
    && (n >= 1 ==> Accepts(sel.city, r.city))
    && (n >= 2 ==> Accepts(sel.gender, r.gender))
    && (n >= 3 ==> Accepts(sel.age, r.ageGroup))
    && (n >= 4 ==> Accepts(sel.category, r.productCategory))
  }

  function AdmittedByFirst(sel: Selection, n: nat): Record -> bool
  {
    (r: Record) => AdmitsFirst(sel, n, r)
  }

  /** One conditional narrowing step of the sidebar filter block, applied after the steps before it, adds its own constraint to theirs. */
  lemma FilterStep(rows: seq<Record>, sel: Selection, n: nat, f: Field, values: seq<string>,
                   cur: seq<Record>) returns (next: seq<Record>)
    requires 1 <= n <= 4 && cur == Filter(AdmittedByFirst(sel, n - 1), rows)
    requires f == [City, Gender, AgeGroup, ProductCategory][n - 1]
    requires values == [sel.city, sel.gender, sel.age, sel.category][n - 1]
    ensures next == (if |values| > 0 then Where(cur, f, values) else cur)
    ensures next == Filter(AdmittedByFirst(sel, n), rows)
  {
    if |values| > 0 {
      next := Where(cur, f, values);
      FilterFilter(IsIn(f, values), AdmittedByFirst(sel, n - 1), AdmittedByFirst(sel, n), rows);
    } else {
      next := cur;
      assert forall r :: AdmitsFirst(sel, n, r) == AdmitsFirst(sel, n - 1, r);
      FilterSameAs(AdmittedByFirst(sel, n - 1), AdmittedByFirst(sel, n), rows);
    }
  }

  lemma {:induction false} FilterSameAs<T>(p: T -> bool, q: T -> bool, s: seq<T>)
    requires forall x :: p(x) == q(x)
    ensures Filter(p, s) == Filter(q, s)
  {
    if s != [] {
      FilterSameAs(p, q, s[1..]);
    }
  }

  /** The filter block as the source runs it: four conditional rebinds of `df_filtered`. */
  method FilterRows(rows: seq<Record>, sel: Selection) returns (filtered: seq<Record>)
    ensures filtered == Filtered(rows, sel)
  {
    filtered := rows;
    FilterAll(AdmittedByFirst(sel, 0), rows);
    ghost var g := filtered;
    if |sel.city| > 0 {
      filtered := Where(filtered, City, sel.city);
    }
    g := FilterStep(rows, sel, 1, City, sel.city, g);
    if |sel.gender| > 0 {
      filtered := Where(filtered, Gender, sel.gender);
    }
    g := FilterStep(rows, sel, 2, Gender, sel.gender, g);
    if |sel.age| > 0 {
      filtered := Where(filtered, AgeGroup, sel.age);
    }
    g := FilterStep(rows, sel, 3, AgeGroup, sel.age, g);
    if |sel.category| > 0 {
      filtered := Where(filtered, ProductCategory, sel.category);
    }
    g := FilterStep(rows, sel, 4, ProductCategory, sel.category, g);
    FilterSameAs(AdmittedByFirst(sel, 4), AdmittedBy(sel), rows);
  }

  /** With nothing picked in any multiselect the working subset is the whole table, in order. */
  lemma NoSelectionKeepsAll(rows: seq<Record>)
    ensures Filtered(rows, NoSelection) == rows
  {
    FilterAll(AdmittedBy(NoSelection), rows);
  }

  /**
   * The working subset is an order-preserving subsequence of the table, and a
   * row is in it exactly when each of its four fields lies in the
   * corresponding selection, wherever that selection is non-empty; every
   * copy of an admitted row is kept.
   */
  lemma FilteredSpec(rows: seq<Record>, sel: Selection)
    ensures IsSubseq(Filtered(rows, sel), rows)
    ensures forall r :: r in Filtered(rows, sel) <==>
              && r in rows
              && (|sel.city| > 0 ==> r.city in sel.city)
              && (|sel.gender| > 0 ==> r.gender in sel.gender)
              && (|sel.age| > 0 ==> r.ageGroup in sel.age)
              && (|sel.category| > 0 ==> r.productCategory in sel.category)
    ensures forall r :: multiset(Filtered(rows, sel))[r] == if Admits(sel, r) then multiset(rows)[r] else 0
  {
    FilterSpec(AdmittedBy(sel), rows);
    FilterCount(AdmittedBy(sel), rows);
  }

  /** Applying the same selections to the working subset changes nothing. */
  lemma FilteredIdempotent(rows: seq<Record>, sel: Selection)
    ensures Filtered(Filtered(rows, sel), sel) == Filtered(rows, sel)
  {
    FilterIdempotent(AdmittedBy(sel), rows);
  }
}
