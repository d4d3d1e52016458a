/** The dimension picker: its icon lookup, the shortened descriptions, and its expanded/collapsed menu. */
module DimensionSelector {
  import opened Wrappers
  import opened Types
  import opened Dimensions

  /** The three icon components the picker can draw. */
  datatype Icon = ZapIcon | SparklesIcon | OrbitIcon

  /** `getIcon`: the icon named by `name`, or `null` for an unknown name. */
  function GetIcon(name: string): (r: Option<Icon>)
    ensures r.Some? <==> exists e :: e in Table && e.icon == name
  {
    if name == "zap" then assert Table[0] in Table; Some(ZapIcon)
    else if name == "sparkles" then assert Table[1] in Table; Some(SparklesIcon)
    else if name == "orbit" then assert Table[2] in Table; Some(OrbitIcon)
    else None
  }

  /** Each recognised name draws a different icon. */
  lemma GetIconInjective(name: string, other: string)
    requires GetIcon(name).Some? && GetIcon(other) == GetIcon(name)
    ensures other == name
  {
  }

  /** The icon name on the toggle button: the active entry's icon, or "zap" when the lookup
      gives nothing or an empty name (`?.icon || 'zap'`). */
  function ToggleIconName(active: Dimension): (name: string)
    ensures GetIcon(name).Some?
  {
    match Find(Table, DimensionId(active))
    case Some(e) => if e.icon != "" then e.icon else "zap"
    case None => "zap"
  }

  /** The toggle button always shows the active dimension's own catalogue icon. */
  lemma ToggleIconIsActiveIcon(active: Dimension)
    ensures ToggleIconName(active) == GetDimension(DimensionId(active)).icon
    ensures GetIcon(ToggleIconName(active)).Some?
  {
    GetDimensionOfId(active);
    DimensionIdInjective(active, Table[0].id);
    DimensionIdInjective(active, Table[1].id);
    DimensionIdInjective(active, Table[2].id);
  }

  /** `s.split('.')[0]`: the text before the first '.', or all of `s` when it has none. */
  function DescriptionPrefix(s: string): (r: string)
    ensures '.' !in r
    ensures r <= s
    ensures r == s || s[|r|] == '.'
    ensures r == s <==> '.' !in s
  {
    if s == [] || s[0] == '.' then [] else [s[0]] + DescriptionPrefix(s[1..])
  }

  /** A description `p + "." + q` with no '.' in `p` is shown as `p`. */
  lemma {:induction false} DescriptionPrefixOfSentence(p: string, q: string)
    requires '.' !in p
    ensures DescriptionPrefix(p + "." + q) == p
  {
    if p != [] {
      assert (p + "." + q)[1..] == p[1..] + "." + q;
      DescriptionPrefixOfSentence(p[1..], q);
    }
  }

  /** The picker's own state: whether its menu is open. */
  class Selector {
    var isExpanded: bool

    constructor ()
      ensures !isExpanded
    {
      isExpanded := false;
    }

    /** The round button opens a closed menu and closes an open one. */
    method Toggle()
      modifies this
      ensures isExpanded == !old(isExpanded)
    {
      isExpanded := !isExpanded;
    }

    /** Clicking the entry for `clicked`: a change request is forwarded only for a dimension other
        than the active one, and the menu closes either way. */
    method ClickDimension(active: Dimension, clicked: Dimension) returns (change: Option<Dimension>)
      modifies this
      ensures change.Some? <==> clicked != active
      ensures change.Some? ==> change.value == clicked
      ensures !isExpanded
    {
      change := None;
      if clicked != active {
        change := Some(clicked);
      }
      isExpanded := false;
    }
  }
}
