/**
 * The pure helpers of the visit list (src/screens/VisitsList.tsx): the icon of a visit
 * type, the capitalised type label, the completion status styling, the list key and
 * the infinite-scroll guard. Case mapping is ASCII only.
 */
module VisitsList {

  import opened Wrappers
  import opened Text

  /** The fields of a visit the list reads. */
  datatype VisitSummary = VisitSummary(visitId: string, companie: string, tipVizita: string, efectuata: bool, dataLimita: string)

  const HelpIcon := "help-circle"

  /** `iconMap`'s own entries. */
  const IconMap: map<string, string> := map[
    "fizica" := "location-sharp",
    "telefonica" := "call",
    "neprecizat" := HelpIcon,
    "locatie neutra" := "people",
    "in punct" := "business"]

  /** Names every object literal inherits from `Object.prototype`; indexing the map with one yields a non-string. */
  const ObjectPrototypeMembers: set<string> := {
    "constructor", "__proto__", "hasOwnProperty", "isPrototypeOf", "propertyIsEnumerable",
    "toString", "toLocaleString", "valueOf", "__defineGetter__", "__defineSetter__",
    "__lookupGetter__", "__lookupSetter__"}

  /** What `iconMap[key] || 'help-circle'` evaluates to: an icon name, or an inherited member (a function or object). */
  datatype IconLookup = IconName(name: string) | InheritedMember(member: string)

  /**
   * `getVisitIcon` as written: the lowered type indexes a plain object literal, so an
   * inherited member is found too and, being truthy, is returned instead of the fallback.
   */
  function VisitIconAsWritten(tipVizita: string): (r: IconLookup)
    ensures r.InheritedMember? <==> Lower(tipVizita) in ObjectPrototypeMembers
    ensures r.IconName? ==> r.name in IconMap.Values
  {
    var key := Lower(tipVizita);
    if key in IconMap then
      assert IconMap[key] in IconMap.Values;
      IconName(IconMap[key])
    else if key in ObjectPrototypeMembers then InheritedMember(key)
    else
      assert IconMap["neprecizat"] == HelpIcon;
      IconName(HelpIcon)
  }

  predicate HasUpper(s: string) {
    exists i :: 0 <= i < |s| && 'A' <= s[i] <= 'Z'
  }

  lemma LowerHasNoUpper(s: string)
    ensures !HasUpper(Lower(s))
  {
  }

  /** Every inherited name but `constructor` and `__proto__` has an upper-case letter. */
  lemma MixedCaseMembers()
    ensures forall m :: m in ObjectPrototypeMembers && m !in {"constructor", "__proto__"} ==> HasUpper(m)
  {
    assert "hasOwnProperty"[3] == 'O';
    assert "isPrototypeOf"[2] == 'P';
    assert "propertyIsEnumerable"[8] == 'I';
    assert "toString"[2] == 'S';
    assert "toLocaleString"[2] == 'L';
    assert "valueOf"[5] == 'O';
    assert "__defineGetter__"[8] == 'G';
    assert "__defineSetter__"[8] == 'S';
    assert "__lookupGetter__"[8] == 'G';
    assert "__lookupSetter__"[8] == 'S';
  }

  /** Only the two all-lower-case inherited names survive `toLowerCase`. */
  lemma ReachableInheritedMembers(tipVizita: string)
    ensures VisitIconAsWritten(tipVizita).InheritedMember? <==> Lower(tipVizita) in {"constructor", "__proto__"}
  {
    LowerHasNoUpper(tipVizita);
    MixedCaseMembers();
  }

  /**
   * A visit typed "Constructor" gets `Object`'s constructor function as its icon name,
   * where the intended lookup falls back to the help icon.
   */
  lemma ConstructorTypeGetsNoIcon(tipVizita: string)
    requires tipVizita == "Constructor"
    ensures VisitIconAsWritten(tipVizita) == InheritedMember("constructor")
    ensures VisitIcon(tipVizita) == HelpIcon
  {
    LowerConstructor(tipVizita);
    assert "constructor" !in IconMap;
  }

  lemma LowerConstructor(s: string)
    requires s == "Constructor"
    ensures Lower(s) == "constructor"
  {
    var r := Lower(s);
    forall i | 0 <= i < 11
      ensures r[i] == "constructor"[i]
    {
    }
  }

  /** The intended lookup: own entries only, everything else falls back to the help icon. */
  function VisitIcon(tipVizita: string): (icon: string)
    ensures icon in IconMap.Values
    ensures icon == HelpIcon <==> Lower(tipVizita) !in IconMap || Lower(tipVizita) == "neprecizat"
  {
    var key := Lower(tipVizita);
    if key in IconMap then
      assert IconMap[key] in IconMap.Values;
      IconMap[key]
    else
      assert IconMap["neprecizat"] == HelpIcon;
      HelpIcon
  }

  /** Outside the inherited names, the shipped lookup and the intended one agree. */
  lemma AsWrittenAgreesElsewhere(tipVizita: string)
    requires Lower(tipVizita) !in ObjectPrototypeMembers
    ensures VisitIconAsWritten(tipVizita) == IconName(VisitIcon(tipVizita))
  {
  }

  /** The lookup ignores letter case. */
  lemma VisitIconCaseInsensitive(tipVizita: string)
    ensures VisitIcon(tipVizita) == VisitIcon(Lower(tipVizita))
  {
    LowerIdempotent(tipVizita);
  }

  /** The type label: `charAt(0).toUpperCase() + slice(1)`. */
  function Capitalise(s: string): (r: string)
    ensures |r| == |s|
    ensures |s| > 0 ==> r[0] == UpperChar(s[0]) && r[1..] == s[1..]
  {
    if |s| == 0 then "" else [UpperChar(s[0])] + s[1..]
  }

  lemma LowerOfUpper(c: char)
    ensures LowerChar(UpperChar(c)) == LowerChar(c)
  {
  }

  /** Capitalising changes only case, so the label and the type select the same icon. */
  lemma CapitalisedLabelKeepsIcon(tipVizita: string)
    ensures Lower(Capitalise(tipVizita)) == Lower(tipVizita)
    ensures VisitIcon(Capitalise(tipVizita)) == VisitIcon(tipVizita)
  {
    var c := Capitalise(tipVizita);
    if |tipVizita| > 0 {
      LowerOfUpper(tipVizita[0]);
      forall i | 0 <= i < |tipVizita|
        ensures Lower(c)[i] == Lower(tipVizita)[i]
      {
        if i > 0 {
          assert c[i] == c[1..][i - 1] == tipVizita[i];
        }
      }
    }
  }

  const DoneColor := "#4CAF50"
  const NotDoneColor := "#F44336"

  /** The status badge: colour, icon and caption. */
  datatype StatusStyle = StatusStyle(color: string, icon: string, caption: string)

  function StatusOf(efectuata: bool): (st: StatusStyle)
    ensures st.color == DoneColor <==> efectuata
    ensures st.icon == "checkmark" <==> efectuata
    ensures st.caption == "Efectuată" <==> efectuata
  {
    if efectuata then StatusStyle(DoneColor, "checkmark", "Efectuată")
    else StatusStyle(NotDoneColor, "close", "Neefectuată")
  }

  /** Colour, icon and label each tell the two statuses apart, and always agree with each other. */
  lemma StatusPartsAgree(a: bool, b: bool)
    ensures StatusOf(a).color == StatusOf(b).color <==> a == b
    ensures StatusOf(a).icon == StatusOf(b).icon <==> a == b
    ensures StatusOf(a).caption == StatusOf(b).caption <==> a == b
  {
  }

  /** `keyExtractor` over the list. */
  function ListKeys(visits: seq<VisitSummary>): (keys: seq<string>)
    ensures |keys| == |visits|
    ensures forall i :: 0 <= i < |visits| ==> keys[i] == visits[i].visitId
  {
    seq(|visits|, i requires 0 <= i < |visits| => visits[i].visitId)
  }

  predicate Distinct(keys: seq<string>) {
    forall i, j :: 0 <= i < j < |keys| ==> keys[i] != keys[j]
  }

  /** The list's keys are unique exactly when no two visits share an id. */
  lemma KeysUniqueIffIdsUnique(visits: seq<VisitSummary>)
    ensures Distinct(ListKeys(visits)) <==> forall i, j :: 0 <= i < j < |visits| ==> visits[i].visitId != visits[j].visitId
  {
  }

  /** What `onEndReached` dispatches. */
  datatype EndReached =
    | Ignore
    /** `setPage(page + 1)` then `getVisits()`; an undefined page makes the sum NaN (None). */
    | LoadMore(requestedPage: Option<int>)
    /** Calling the undefined `setPage` binding throws a TypeError; nothing is dispatched. */
    | SetPageThrows

  /**
   * The infinite-scroll guard `loading == false && hasMore == true`. The three fields
   * are read from the visits slice and may be undefined (None); loose equality never
   * equates undefined with a boolean. `setPageExported` says whether the visits slice
   * exports the `setPage` action creator the screen imports: the shipped slice exports
   * only `clearVisits`, so the imported binding is undefined and calling it throws.
   */
  function OnEndReached(loading: Option<bool>, hasMore: Option<bool>, page: Option<int>, setPageExported: bool): (r: EndReached)
    ensures r != Ignore <==> loading == Some(false) && hasMore == Some(true)
    ensures r.LoadMore? <==> loading == Some(false) && hasMore == Some(true) && setPageExported
    ensures r.SetPageThrows? <==> loading == Some(false) && hasMore == Some(true) && !setPageExported
    ensures r.LoadMore? ==> (r.requestedPage.Some? <==> page.Some?)
    ensures r.LoadMore? && page.Some? ==> r.requestedPage.value == page.value + 1
  {
    if loading == Some(false) && hasMore == Some(true) then
      if setPageExported then LoadMore(if page.Some? then Some(page.value + 1) else None)
      else SetPageThrows
    else Ignore
  }

  /**
   * Against the shipped slice, which has neither a loading nor a has-more field and
   * exports no `setPage`, scrolling to the end never requests another page.
   */
  lemma ShippedSliceNeverLoadsMore(page: Option<int>)
    ensures forall loading: Option<bool>, hasMore: Option<bool>, exported: bool ::
      (loading.None? || hasMore.None?) ==> OnEndReached(loading, hasMore, page, exported) == Ignore
    ensures forall loading: Option<bool>, hasMore: Option<bool> :: !OnEndReached(loading, hasMore, page, false).LoadMore?
  {
  }
}
