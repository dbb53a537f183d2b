/**
 * The pool configuration tables: the nine tracked pool ids, the category of
 * each, and the category tabs. The lemmas check the tables against each
 * other.
 */
module PoolConfig {
  import opened Seqs

  /** `CategoryType`: the tab `All` and the three real categories. */
  datatype Category = All | Lending | LiquidStaking | YieldAggregator

  /** The string each category is written as. */
  function CategoryName(c: Category): string {
    match c
    case All => "All"
    case Lending => "Lending"
    case LiquidStaking => "Liquid Staking"
    case YieldAggregator => "Yield Aggregator"
  }

  /** `TARGET_POOL_IDS`. */
  const TargetPoolIds: seq<string> := [
    "db678df9-3281-4bc2-a8bb-01160ffd6d48", // aave-v3
    "c1ca08e4-d618-415e-ad63-fcec58705469", // compound-v3
    "8edfdf02-cdbb-43f7-bca6-954e5fe56813", // maple
    "747c1d2a-c668-4682-b9f9-296708a3dd90", // lido
    "80b8bf92-b953-4c20-98ea-c9653ef2bb98", // binance-staked-eth
    "90bfb3c2-5d35-4959-a275-ba5085b08aa3", // stader
    "107fb915-ab29-475b-b526-d0ed0d3e6110", // cian-yield-layer
    "05a3d186-2d42-4e21-b1f0-68c079d22677", // yearn-finance
    "1977885c-d5ae-4c9e-b4df-863b7e1578e6"  // beefy
  ]

  /** `CATEGORY_MAPPING`. */
  const CategoryMapping: map<string, Category> := map[
    "db678df9-3281-4bc2-a8bb-01160ffd6d48" := Lending,
    "c1ca08e4-d618-415e-ad63-fcec58705469" := Lending,
    "8edfdf02-cdbb-43f7-bca6-954e5fe56813" := Lending,
    "747c1d2a-c668-4682-b9f9-296708a3dd90" := LiquidStaking,
    "80b8bf92-b953-4c20-98ea-c9653ef2bb98" := LiquidStaking,
    "90bfb3c2-5d35-4959-a275-ba5085b08aa3" := LiquidStaking,
    "107fb915-ab29-475b-b526-d0ed0d3e6110" := YieldAggregator,
    "05a3d186-2d42-4e21-b1f0-68c079d22677" := YieldAggregator,
    "1977885c-d5ae-4c9e-b4df-863b7e1578e6" := YieldAggregator
  ]

  /** `CATEGORIES`: the tabs, in display order. */
  const Categories: seq<Category> := [All, Lending, LiquidStaking, YieldAggregator]

  /** The tracked ids whose mapped category is `c`, in table order. */
  function IdsOf(c: Category): seq<string> {
    Filter(TargetPoolIds, MappedTo(c))
  }

  /** Whether an id is mapped to category `c`. */
  function MappedTo(c: Category): string -> bool {
    id => id in CategoryMapping && CategoryMapping[id] == c
  }

  /** Nine ids, no two alike. */
  lemma TargetPoolIdsDistinct()
    ensures |TargetPoolIds| == 9
    ensures forall i, j :: 0 <= i < j < |TargetPoolIds| ==> TargetPoolIds[i] != TargetPoolIds[j]
  {
  }

  /** The mapping has an entry for every tracked id and for nothing else. */
  lemma MappingCoversTargets()
    ensures forall id :: id in CategoryMapping <==> id in TargetPoolIds
  {
  }

  /** No pool is placed in the `All` tab's category. */
  lemma NoPoolMappedToAll()
    ensures forall id :: id in CategoryMapping ==> CategoryMapping[id] != All
  {
  }

  /** The category of the tracked id at position `i` of `TargetPoolIds`: the table lists three of each, in tab order. */
  function CategoryOfPosition(i: int): Category {
    if i < 3 then Lending else if i < 6 then LiquidStaking else YieldAggregator
  }

  /** The mapping gives every tracked id the category of its place in the table. */
  lemma CategoryAt(i: int)
    requires 0 <= i < |TargetPoolIds|
    ensures TargetPoolIds[i] in CategoryMapping
    ensures CategoryMapping[TargetPoolIds[i]] == CategoryOfPosition(i)
  {
    if i == 0 {} else if i == 1 {} else if i == 2 {} else if i == 3 {} else if i == 4 {}
    else if i == 5 {} else if i == 6 {} else if i == 7 {} else {}
  }

  /** The tracked ids in table order, by category. */
  lemma IdsOfCategories()
    ensures IdsOf(Lending) == TargetPoolIds[..3]
    ensures IdsOf(LiquidStaking) == TargetPoolIds[3..6]
    ensures IdsOf(YieldAggregator) == TargetPoolIds[6..]
    ensures IdsOf(All) == []
  {
    IdsOfSlice(Lending, 0, 3);
    IdsOfSlice(LiquidStaking, 3, 6);
    IdsOfSlice(YieldAggregator, 6, 9);
    IdsOfSlice(All, 0, 0);
  }

  /** The ids of a category whose positions form one run of the table. */
  lemma IdsOfSlice(c: Category, lo: int, hi: int)
    requires 0 <= lo <= hi <= |TargetPoolIds|
    requires forall k :: 0 <= k < |TargetPoolIds| ==> (CategoryOfPosition(k) == c <==> lo <= k < hi)
    ensures IdsOf(c) == TargetPoolIds[lo..hi]
  {
    var t := TargetPoolIds;
    forall k | 0 <= k < |t| ensures MappedTo(c)(t[k]) <==> lo <= k < hi {
      CategoryAt(k);
    }
    FilterKeepsSlice(t, MappedTo(c), lo, hi);
  }

  /** Three tracked ids per real category. */
  lemma ThreePerCategory()
    ensures |IdsOf(Lending)| == 3 && |IdsOf(LiquidStaking)| == 3 && |IdsOf(YieldAggregator)| == 3
  {
    IdsOfCategories();
  }

  /** The tabs are `All` first, then the three real categories, every category exactly once. */
  lemma CategoriesTable()
    ensures |Categories| == 4 && Categories[0] == All
    ensures forall c: Category :: c in Categories
    ensures forall i, j :: 0 <= i < j < |Categories| ==> Categories[i] != Categories[j]
    ensures forall i, j :: 0 <= i < j < |Categories| ==> CategoryName(Categories[i]) != CategoryName(Categories[j])
  {
    forall c: Category ensures c in Categories {
      match c
      case All => assert Categories[0] == c;
      case Lending => assert Categories[1] == c;
      case LiquidStaking => assert Categories[2] == c;
      case YieldAggregator => assert Categories[3] == c;
    }
    forall i, j | 0 <= i < j < |Categories|
      ensures Categories[i] != Categories[j]
      ensures CategoryName(Categories[i]) != CategoryName(Categories[j])
    {
      assert Categories[0] == All && Categories[1] == Lending;
      assert Categories[2] == LiquidStaking && Categories[3] == YieldAggregator;
    }
  }
}
