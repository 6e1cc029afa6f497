/**
 The count tables the analyzer draws from the enriched rows: for one
 category, a Topic x Trainer table over the rows of that category (the
 on-screen heatmap for the selected category and one saved heatmap per
 category), and a Topic x Category table over all rows (the stacked bar
 chart).
 */
module Aggregate {
  import opened Classify
  import opened Counting
  import opened CrossTabs

  function TopicOf(e: EnrichedRow): string { e.topic }
  function TrainerOf(e: EnrichedRow): string { e.trainer }
  function CategoryOf(e: EnrichedRow): Category { e.category }

  /** The distinct categories of the frame, in order of first appearance:
      the choices of the category selector and the categories the report
      loop visits. */
  function Categories(rows: seq<EnrichedRow>): (cats: seq<Category>)
    ensures Distinct(cats)
    ensures forall c :: c in cats <==> exists i :: 0 <= i < |rows| && rows[i].category == c
    ensures forall c :: c in cats <==> c in Column(rows, CategoryOf)
    ensures forall i, j :: 0 <= i < j < |cats| ==>
      FirstIndex(Column(rows, CategoryOf), cats[i]) < FirstIndex(Column(rows, CategoryOf), cats[j])
  {
    var col := Column(rows, CategoryOf);
    var cats := Unique(col);
    UniqueFirstAppearance(col);
    assert forall c :: c in col <==> exists i :: 0 <= i < |rows| && rows[i].category == c by {
      forall c ensures c in col <==> exists i :: 0 <= i < |rows| && rows[i].category == c {
        if c in col {
          var i :| 0 <= i < |col| && col[i] == c;
          assert rows[i].category == c;
        }
      }
    }
    cats
  }

  /** The distinct topics of the frame, in order of first appearance. */
  function Topics(rows: seq<EnrichedRow>): (ts: seq<string>)
    ensures Distinct(ts)
    ensures forall t :: t in ts <==> exists i :: 0 <= i < |rows| && rows[i].topic == t
  {
    var col := Column(rows, TopicOf);
    var ts := Unique(col);
    assert forall t :: t in col <==> exists i :: 0 <= i < |rows| && rows[i].topic == t by {
      forall t ensures t in col <==> exists i :: 0 <= i < |rows| && rows[i].topic == t {
        if t in col {
          var i :| 0 <= i < |col| && col[i] == t;
          assert rows[i].topic == t;
        }
      }
    }
    ts
  }

  /** The rows of one category, in their original order. */
  function SelectCategory(rows: seq<EnrichedRow>, cat: Category): (sel: seq<EnrichedRow>)
    ensures forall e :: e in sel <==> e in rows && e.category == cat
    ensures |sel| == CategoryCount(rows, cat)
    ensures forall e :: multiset(sel)[e] == if e.category == cat then multiset(rows)[e] else 0
  {
    CategoryCountIsSelection(rows, cat);
    WhereMembers(rows, CategoryOf, cat);
    WhereCount(rows, CategoryOf, cat);
    Where(rows, CategoryOf, cat)
  }

  /** Number of rows of category `cat`. */
  function CategoryCount(rows: seq<EnrichedRow>, cat: Category): nat {
    if |rows| == 0 then 0
    else (if rows[0].category == cat then 1 else 0) + CategoryCount(rows[1..], cat)
  }

  /** Number of rows with topic `t`. */
  function TopicCount(rows: seq<EnrichedRow>, t: string): nat {
    if |rows| == 0 then 0
    else (if rows[0].topic == t then 1 else 0) + TopicCount(rows[1..], t)
  }

  /** Number of rows with topic `t` and trainer `r`. */
  function PairCount(rows: seq<EnrichedRow>, t: string, r: string): nat {
    if |rows| == 0 then 0
    else (if rows[0].topic == t && rows[0].trainer == r then 1 else 0) + PairCount(rows[1..], t, r)
  }

  /** Number of rows with topic `t` and category `c`. */
  function TopicCategoryCount(rows: seq<EnrichedRow>, t: string, c: Category): nat {
    if |rows| == 0 then 0
    else (if rows[0].topic == t && rows[0].category == c then 1 else 0) + TopicCategoryCount(rows[1..], t, c)
  }

  /** Number of rows with topic `t`, trainer `r` and category `c`. */
  function MatchCount(rows: seq<EnrichedRow>, t: string, r: string, c: Category): nat {
    if |rows| == 0 then 0
    else (if rows[0].topic == t && rows[0].trainer == r && rows[0].category == c then 1 else 0)
         + MatchCount(rows[1..], t, r, c)
  }

  /** The Topic x Trainer count table over the rows of category `cat`, the
      rows `SelectCategory` keeps. */
  function CategoryPivot(rows: seq<EnrichedRow>, cat: Category): CrossTab<string, string> {
    Tabulate(Where(rows, CategoryOf, cat), TopicOf, TrainerOf)
  }

  /** The heatmap's keys are the topics and trainers of the rows of category
      `cat` only, and it has a cell for each of their pairs. */
  lemma CategoryPivotKeys(rows: seq<EnrichedRow>, cat: Category)
    ensures forall t :: t in CategoryPivot(rows, cat).rowKeys <==> exists i :: 0 <= i < |rows| && rows[i].category == cat && rows[i].topic == t
    ensures forall r :: r in CategoryPivot(rows, cat).colKeys <==> exists i :: 0 <= i < |rows| && rows[i].category == cat && rows[i].trainer == r
    ensures forall t, r :: (t, r) in CategoryPivot(rows, cat).cells <==> t in CategoryPivot(rows, cat).rowKeys && r in CategoryPivot(rows, cat).colKeys
  {
    var sel := Where(rows, CategoryOf, cat);
    WhereMembers(rows, CategoryOf, cat);
    SelectionKeys(rows, cat, sel);
    TabulateKeys(sel, TopicOf, TrainerOf);
  }

  /** The Topic x Category count table over all rows. */
  function TopicCategoryCrosstab(rows: seq<EnrichedRow>): CrossTab<string, Category> {
    Tabulate(rows, TopicOf, CategoryOf)
  }

  /** The bar table's rows are the observed topics and its columns are the
      categories that occur, not all three; it has a cell for each pair. */
  lemma CrosstabKeys(rows: seq<EnrichedRow>)
    ensures forall t :: t in TopicCategoryCrosstab(rows).rowKeys <==> exists i :: 0 <= i < |rows| && rows[i].topic == t
    ensures forall c :: c in TopicCategoryCrosstab(rows).colKeys <==> c in Categories(rows)
    ensures forall t, c :: (t, c) in TopicCategoryCrosstab(rows).cells <==> t in TopicCategoryCrosstab(rows).rowKeys && c in TopicCategoryCrosstab(rows).colKeys
  {
  }

  /** Selection by category keeps the count of each category. */
  lemma {:induction false} CategoryCountIsSelection(rows: seq<EnrichedRow>, cat: Category)
    ensures |Where(rows, CategoryOf, cat)| == CategoryCount(rows, cat)
  {
    if |rows| > 0 {
      CategoryCountIsSelection(rows[1..], cat);
    }
  }

  /** The topics and trainers observed among the selected rows are those of
      the rows of that category. */
  lemma SelectionKeys(rows: seq<EnrichedRow>, cat: Category, sel: seq<EnrichedRow>)
    requires forall e :: e in sel <==> e in rows && e.category == cat
    ensures forall t :: t in Observed(sel, TopicOf) <==> exists i :: 0 <= i < |rows| && rows[i].category == cat && rows[i].topic == t
    ensures forall r :: r in Observed(sel, TrainerOf) <==> exists i :: 0 <= i < |rows| && rows[i].category == cat && rows[i].trainer == r
  {
  }

  /** Selecting by topic keeps the count of each topic. */
  lemma {:induction false} TopicCountIsSelection(rows: seq<EnrichedRow>, t: string)
    ensures |Where(rows, TopicOf, t)| == TopicCount(rows, t)
  {
    if |rows| > 0 {
      TopicCountIsSelection(rows[1..], t);
    }
  }

  /** Selecting by topic and then by trainer keeps the count of each pair. */
  lemma {:induction false} PairCountIsSelection(rows: seq<EnrichedRow>, t: string, r: string)
    ensures |Where(Where(rows, TopicOf, t), TrainerOf, r)| == PairCount(rows, t, r)
  {
    if |rows| > 0 {
      WhereWhereCons(rows, TopicOf, t, TrainerOf, r);
      PairCountIsSelection(rows[1..], t, r);
    }
  }

  /** Selecting by topic and then by category keeps the count of each pair. */
  lemma {:induction false} TopicCategoryCountIsSelection(rows: seq<EnrichedRow>, t: string, c: Category)
    ensures |Where(Where(rows, TopicOf, t), CategoryOf, c)| == TopicCategoryCount(rows, t, c)
  {
    if |rows| > 0 {
      WhereWhereCons(rows, TopicOf, t, CategoryOf, c);
      TopicCategoryCountIsSelection(rows[1..], t, c);
    }
  }

  /** Selecting by category, then topic, then trainer keeps the count of
      each triple. */
  lemma {:induction false} MatchCountIsSelection(rows: seq<EnrichedRow>, t: string, r: string, c: Category)
    ensures |Where(Where(Where(rows, CategoryOf, c), TopicOf, t), TrainerOf, r)| == MatchCount(rows, t, r, c)
  {
    if |rows| > 0 {
      var x := rows[0];
      var inner := Where(Where(rows, CategoryOf, c), TopicOf, t);
      var rest := Where(Where(rows[1..], CategoryOf, c), TopicOf, t);
      var head := if x.category == c && x.topic == t then [x] else [];
      WhereWhereCons(rows, CategoryOf, c, TopicOf, t);
      assert inner == head + rest;
      WhereAppend(head, rest, TrainerOf, r);
      assert |Where(head, TrainerOf, r)| == if x.category == c && x.topic == t && x.trainer == r then 1 else 0;
      MatchCountIsSelection(rows[1..], t, r, c);
    }
  }

  /** A cell of the heatmap for category `cat` is the number of rows of that
      category with that topic and trainer; a pair never seen among them
      reads 0. */
  lemma CategoryPivotCell(rows: seq<EnrichedRow>, cat: Category, t: string, r: string)
    ensures CategoryPivot(rows, cat).At(t, r) == MatchCount(rows, t, r, cat)
  {
    TabulateAt(Where(rows, CategoryOf, cat), TopicOf, TrainerOf, t, r);
    MatchCountIsSelection(rows, t, r, cat);
  }

  /** A cell of the Topic x Category table is the number of rows with that
      topic and category; a pair never seen reads 0. */
  lemma CrosstabCell(rows: seq<EnrichedRow>, t: string, c: Category)
    ensures TopicCategoryCrosstab(rows).At(t, c) == TopicCategoryCount(rows, t, c)
  {
    TabulateAt(rows, TopicOf, CategoryOf, t, c);
    TopicCategoryCountIsSelection(rows, t, c);
  }

  /** Each topic's bar, summed over the categories that occur, is the number
      of rows with that topic. */
  lemma CrosstabRowSum(rows: seq<EnrichedRow>, t: string)
    ensures RowSum(TopicCategoryCrosstab(rows), t, Categories(rows)) == TopicCount(rows, t)
  {
    var cats := Categories(rows);
    forall k | k in Observed(rows, CategoryOf) ensures k in cats {
      var i :| 0 <= i < |rows| && rows[i].category == k;
    }
    RowSumIsRowCount(rows, TopicOf, CategoryOf, t, cats);
    TopicCountIsSelection(rows, t);
  }

  /** All cells of the Topic x Category table add up to the number of rows. */
  lemma CrosstabTotal(rows: seq<EnrichedRow>)
    ensures Total(TopicCategoryCrosstab(rows), Topics(rows), Categories(rows)) == |rows|
  {
    var cats := Categories(rows);
    var ts := Topics(rows);
    forall k | k in Observed(rows, CategoryOf) ensures k in cats {
      var i :| 0 <= i < |rows| && rows[i].category == k;
    }
    forall k | k in Observed(rows, TopicOf) ensures k in ts {
      var i :| 0 <= i < |rows| && rows[i].topic == k;
    }
    TotalIsRowCount(rows, TopicOf, CategoryOf, ts, cats);
  }

  /** Sum of cell (t, r) over the per-category heatmaps of the categories `cs`. */
  function PivotSum(rows: seq<EnrichedRow>, cs: seq<Category>, t: string, r: string): nat {
    if |cs| == 0 then 0 else CategoryPivot(rows, cs[0]).At(t, r) + PivotSum(rows, cs[1..], t, r)
  }

  /** Summing heatmap cells over categories counts the rows with that topic
      and trainer by category. */
  lemma {:induction false} PivotSumSelection(rows: seq<EnrichedRow>, cs: seq<Category>, t: string, r: string)
    ensures PivotSum(rows, cs, t, r) == SumKeys(Where(Where(rows, TopicOf, t), TrainerOf, r), CategoryOf, cs)
  {
    if |cs| > 0 {
      var c := cs[0];
      TabulateAt(Where(rows, CategoryOf, c), TopicOf, TrainerOf, t, r);
      WhereCommutes(rows, CategoryOf, c, TopicOf, t);
      WhereCommutes(Where(rows, TopicOf, t), CategoryOf, c, TrainerOf, r);
      PivotSumSelection(rows, cs[1..], t, r);
    }
  }

  /** The per-category heatmaps partition the rows: for every topic and
      trainer, their cells add up to the number of rows with that topic and
      trainer, so each row is counted in exactly one heatmap. */
  lemma CategoryPivotsPartition(rows: seq<EnrichedRow>, t: string, r: string)
    ensures PivotSum(rows, Categories(rows), t, r) == PairCount(rows, t, r)
  {
    var cats := Categories(rows);
    var sel := Where(Where(rows, TopicOf, t), TrainerOf, r);
    PivotSumSelection(rows, cats, t, r);
    WhereMembers(rows, TopicOf, t);
    WhereMembers(Where(rows, TopicOf, t), TrainerOf, r);
    forall i | 0 <= i < |sel| ensures sel[i].category in cats {
      assert sel[i] in sel;
      assert sel[i] in Where(rows, TopicOf, t);
      assert sel[i] in rows;
      var k :| 0 <= k < |rows| && rows[k] == sel[i];
    }
    SumKeysCovers(sel, CategoryOf, cats);
    PairCountIsSelection(rows, t, r);
  }

  /** Sum of cell (t, r) over a list of labelled heatmaps. */
  function HeatmapSum(tables: seq<(Category, CrossTab<string, string>)>, t: string, r: string): nat {
    if |tables| == 0 then 0 else tables[0].1.At(t, r) + HeatmapSum(tables[1..], t, r)
  }

  /** Labelled heatmaps built for the categories `cs` sum like the pivots of
      those categories. */
  lemma {:induction false} HeatmapSumIsPivotSum(rows: seq<EnrichedRow>, cs: seq<Category>,
                                                tables: seq<(Category, CrossTab<string, string>)>, t: string, r: string)
    requires |tables| == |cs|
    requires forall j :: 0 <= j < |cs| ==> tables[j] == (cs[j], CategoryPivot(rows, cs[j]))
    ensures HeatmapSum(tables, t, r) == PivotSum(rows, cs, t, r)
  {
    if |cs| > 0 {
      assert tables[0] == (cs[0], CategoryPivot(rows, cs[0]));
      HeatmapSumIsPivotSum(rows, cs[1..], tables[1..], t, r);
    }
  }

  /** The report loop: one heatmap per category that occurs, in order of
      first appearance, each labelled with its category. Every row lands in
      exactly one of them. */
  method HeatmapTables(rows: seq<EnrichedRow>) returns (tables: seq<(Category, CrossTab<string, string>)>)
    ensures |tables| == |Categories(rows)|
    ensures forall j :: 0 <= j < |tables| ==> tables[j].0 == Categories(rows)[j]
    ensures forall j :: 0 <= j < |tables| ==> tables[j].1 == CategoryPivot(rows, tables[j].0)
    ensures forall t, r :: HeatmapSum(tables, t, r) == PairCount(rows, t, r)
  {
    var cats := Categories(rows);
    tables := [];
    var i := 0;
    while i < |cats|
      invariant 0 <= i <= |cats|
      invariant |tables| == i
      invariant forall j :: 0 <= j < i ==> tables[j] == (cats[j], CategoryPivot(rows, cats[j]))
    {
      tables := tables + [(cats[i], CategoryPivot(rows, cats[i]))];
      i := i + 1;
    }
    forall t, r ensures HeatmapSum(tables, t, r) == PairCount(rows, t, r) {
      HeatmapSumIsPivotSum(rows, cats, tables, t, r);
      CategoryPivotsPartition(rows, t, r);
    }
  }

  /** At most three categories occur, so the report saves at most three
      heatmaps. */
  lemma AtMostThreeCategories(rows: seq<EnrichedRow>)
    ensures |Categories(rows)| <= 3
  {
    var cats := Categories(rows);
    DistinctCard(cats);
    var all: set<Category> := {Compliment, Complaint, Suggestion};
    assert (set k | k in cats) <= all by {
      forall k | k in cats ensures k in all {
        match k
        case Compliment =>
        case Complaint =>
        case Suggestion =>
      }
    }
    assert |all| == 3;
    SubsetCard((set k | k in cats), all);
  }

  /** A subset is no larger than its superset. */
  lemma {:induction false} SubsetCard(a: set<Category>, b: set<Category>)
    requires a <= b
    ensures |a| <= |b|
    decreases |b|
  {
    if a != {} {
      var x :| x in a;
      SubsetCard(a - {x}, b - {x});
    }
  }
}
