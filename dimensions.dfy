/** The fixed catalogue of dimensions and its lookup by id. */
module Dimensions {
  import opened Wrappers
  import opened Types

  datatype DimensionInfo = DimensionInfo(
    id: Dimension,
    name: string,
    description: string,
    icon: string,
    bgClass: string)

  /** The `dimensions` array, in display order. */
  const Table: seq<DimensionInfo> := [
    DimensionInfo(Cyber, "Neon Overdrive",
      "Tasks in the cyberpunk metropolis. Fast-paced and tech-driven.", "zap", "cyber-bg"),
    DimensionInfo(Magic, "Arcane Wonders",
      "Tasks in a realm of magic and wonder. Creative and inspiring.", "sparkles", "magic-bg"),
    DimensionInfo(Void, "Void Runner",
      "Tasks in the cosmic void. Deep focus and profound importance.", "orbit", "void-bg")
  ]

  /** `entries.findIndex(d => d.id === id)`, with `None` for -1: the first entry whose id is `id`. */
  function FindIndex(entries: seq<DimensionInfo>, id: string): (r: Option<nat>)
    ensures r.Some? ==> r.value < |entries| && DimensionId(entries[r.value].id) == id
    ensures r.Some? ==> forall j :: 0 <= j < r.value ==> DimensionId(entries[j].id) != id
    ensures r.None? <==> forall j :: 0 <= j < |entries| ==> DimensionId(entries[j].id) != id
  {
    if entries == [] then None
    else if DimensionId(entries[0].id) == id then Some(0)
    else match FindIndex(entries[1..], id)
      case None => None
      case Some(k) => Some(k + 1)
  }

  /** `entries.find(d => d.id === id)`: the first matching entry, or `undefined`. */
  function Find(entries: seq<DimensionInfo>, id: string): (r: Option<DimensionInfo>)
    ensures r.Some? ==> r.value in entries && DimensionId(r.value.id) == id
    ensures r.None? <==> forall e :: e in entries ==> DimensionId(e.id) != id
  {
    match FindIndex(entries, id)
    case Some(k) => Some(entries[k])
    case None => None
  }

  /** `getDimension`: the catalogue entry for `id`, falling back to the first entry. */
  function GetDimension(id: string): (r: DimensionInfo)
    ensures r in Table
    ensures (exists e :: e in Table && DimensionId(e.id) == id) ==> DimensionId(r.id) == id
    ensures (forall e :: e in Table ==> DimensionId(e.id) != id) ==> r == Table[0]
  {
    match Find(Table, id)
    case Some(e) => e
    case None => Table[0]
  }

  /** The catalogue lists cyber, magic and void, in that order. */
  lemma TableOrder()
    ensures |Table| == 3
    ensures Table[0].id == Cyber && Table[1].id == Magic && Table[2].id == Void
  {
  }

  /** Every dimension has exactly one entry in the catalogue. */
  lemma {:induction false} EntryUnique(d: Dimension, i: nat, j: nat)
    requires i < |Table| && j < |Table|
    requires Table[i].id == d && Table[j].id == d
    ensures i == j
  {
  }

  /** Looking up a dimension's own id finds that dimension's entry. */
  lemma GetDimensionOfId(d: Dimension)
    ensures GetDimension(DimensionId(d)).id == d
    ensures GetDimension(DimensionId(d)) == Table[if d == Cyber then 0 else if d == Magic then 1 else 2]
  {
    DimensionIdInjective(d, Table[0].id);
    DimensionIdInjective(d, Table[1].id);
    DimensionIdInjective(d, Table[2].id);
  }

  /** A string that is not the id of any dimension falls back to the cyber entry. */
  lemma GetDimensionFallback(id: string)
    requires id != "cyber" && id != "magic" && id != "void"
    ensures GetDimension(id) == Table[0] && GetDimension(id).id == Cyber
  {
  }

  /** Each entry's background class is its id followed by "-bg". */
  lemma BgClassFollowsId(e: DimensionInfo)
    requires e in Table
    ensures e.bgClass == DimensionId(e.id) + "-bg"
  {
  }
}
