/**
  The category node of the markers view.  A category shows the entries
  `start` to `end` (both inclusive) of the marker entry array its `Markers`
  holds.  It builds its child array lazily, once, and hands every child a
  back-pointer to itself; it caches the highest severity among its concrete
  children, scanning them until the error level is reached; it chooses one of
  three description labels; and two categories are equal when they have the
  same `Markers` and the same name.

  The collaborators are reduced to what the category reads of them:
  `Markers` is the entry array plus the content generator's limit settings,
  and a `MarkerEntry` is its concreteness, its attributes, its category and
  whether it holds cached values.
*/
module MarkerCategories {

  /** Severity levels and the attribute key of a marker. */
  const SEVERITY_INFO: int := 0
  const SEVERITY_WARNING: int := 1
  const SEVERITY_ERROR: int := 2
  const SEVERITY: string := "severity"

  /** A Java reference that may be null. */
  datatype Option<T> = None | Some(value: T)

  /** Java's 32-bit `int`. */
  newtype int32 = x: int | -0x8000_0000 <= x < 0x8000_0000

  /** The `int` that Java's wrapping arithmetic gives for the mathematical value `x`. */
  function Wrap32(x: int): (r: int32)
    ensures (x - r as int) % 0x1_0000_0000 == 0
    ensures -0x8000_0000 <= x < 0x8000_0000 ==> r as int == x
  {
    var m := x % 0x1_0000_0000;
    if m < 0x8000_0000 then m as int32 else (m - 0x1_0000_0000) as int32
  }

  /** Numbers congruent modulo 2^32 wrap to the same `int`. */
  lemma WrapCongruent(x: int, y: int)
    requires (x - y) % 0x1_0000_0000 == 0
    ensures Wrap32(x) == Wrap32(y)
  {
    var q := (x - y) / 0x1_0000_0000;
    assert x == y + q * 0x1_0000_0000;
  }

  /** Wrapping an intermediate result makes no difference to a later multiply-and-add in `int` arithmetic. */
  lemma WrapInner(k: int, a: int, b: int)
    ensures Wrap32(k * Wrap32(a) as int + b) == Wrap32(k * a + b)
  {
    var w := Wrap32(a) as int;
    var q := (a - w) / 0x1_0000_0000;
    assert a - w == q * 0x1_0000_0000;
    var d := k * q;
    assert (k * a + b) - (k * w + b) == d * 0x1_0000_0000;
    assert (d * 0x1_0000_0000) % 0x1_0000_0000 == 0;
    WrapCongruent(k * a + b, k * w + b);
  }

  /** Java's String.hashCode: h = 31 * h + c over the characters, in `int` arithmetic. */
  function StringHash(s: string): int32
  {
    if s == [] then 0 else Wrap32(31 * StringHash(s[..|s| - 1]) as int + s[|s| - 1] as int)
  }

  /** What a category reads of the marker set: the entry array and the generator's limit settings. */
  class Markers {
    var entries: array<MarkerEntry>
    var limitsEnabled: bool
    var limit: int
    /** Object.hashCode of this Markers. */
    const hash: int32

    constructor (entries: array<MarkerEntry>, limitsEnabled: bool, limit: int, hash: int32)
      ensures this.entries == entries && this.limitsEnabled == limitsEnabled
      ensures this.limit == limit && this.hash == hash
    {
      this.entries := entries;
      this.limitsEnabled := limitsEnabled;
      this.limit := limit;
      this.hash := hash;
    }
  }

  /** What a category reads and writes of one marker entry. */
  class MarkerEntry {
    const concrete: bool
    const attributes: map<string, int>
    var category: MarkerCategory?
    /** Whether the entry holds cached values that clearCache discards. */
    var cached: bool

    constructor (concrete: bool, attributes: map<string, int>)
      ensures this.concrete == concrete && this.attributes == attributes
      ensures category == null && cached
    {
      this.concrete := concrete;
      this.attributes := attributes;
      category := null;
      cached := true;
    }

    /** The integer attribute `key`, or `default` when the entry has none. */
    function AttributeValue(key: string, default: int): int
    {
      if key in attributes then attributes[key] else default
    }
  }

  /** The severity the category scan reads of an entry: its severity attribute, -1 when missing. */
  function Severity(e: MarkerEntry): int
  {
    e.AttributeValue(SEVERITY, -1)
  }

  /**
    The highest-severity scan as the category runs it, from running value
    `running` over `items`: a concrete item raises the running value to its
    severity, and the scan stops as soon as the running value is the error
    level; non-concrete items are skipped.
  */
  function ScanSeverity(items: seq<MarkerEntry>, running: int): (r: int)
    ensures r >= running
    decreases |items|
  {
    if items == [] then running
    else if items[0].concrete then
      var next := if Severity(items[0]) > running then Severity(items[0]) else running;
      if next == SEVERITY_ERROR then next else ScanSeverity(items[1..], next)
    else ScanSeverity(items[1..], running)
  }

  /** The category's highest severity over `items`: the scan that starts at the info level, so never negative. */
  function HighestSeverity(items: seq<MarkerEntry>): (r: int)
    ensures r >= 0
  {
    ScanSeverity(items, SEVERITY_INFO)
  }

  /** An independent reference: the largest of 0 and the severities of the concrete items, without early exit. */
  function MaxSeverity(items: seq<MarkerEntry>): (r: int)
    ensures r >= 0
    ensures forall k :: 0 <= k < |items| && items[k].concrete ==> Severity(items[k]) <= r
    ensures r == 0 || exists k :: 0 <= k < |items| && items[k].concrete && Severity(items[k]) == r
    decreases |items|
  {
    if items == [] then 0
    else
      var rest := MaxSeverity(items[1..]);
      assert forall k :: 1 <= k < |items| ==> items[k] == items[1..][k - 1];
      if items[0].concrete && Severity(items[0]) > rest then Severity(items[0]) else rest
  }

  /** The scan ends on its running value or on the severity of a concrete item. */
  lemma {:induction false} ScanSeverityBounds(items: seq<MarkerEntry>, running: int)
    ensures var r := ScanSeverity(items, running);
      r == running || exists k :: 0 <= k < |items| && items[k].concrete && Severity(items[k]) == r
    decreases |items|
  {
    if items != [] {
      var next := if items[0].concrete && Severity(items[0]) > running then Severity(items[0]) else running;
      if !(items[0].concrete && next == SEVERITY_ERROR) {
        ScanSeverityBounds(items[1..], next);
        var r := ScanSeverity(items[1..], next);
        if r != next {
          var k :| 0 <= k < |items[1..]| && items[1..][k].concrete && Severity(items[1..][k]) == r;
          assert items[k + 1] == items[1..][k];
        }
      }
    }
  }

  /** The category's highest severity is 0 or the severity of a concrete child. */
  lemma HighestSeverityBounds(items: seq<MarkerEntry>)
    ensures var r := HighestSeverity(items);
      r == 0 || exists k :: 0 <= k < |items| && items[k].concrete && Severity(items[k]) == r
  {
    ScanSeverityBounds(items, SEVERITY_INFO);
  }

  /** With every concrete severity at most the error level, the early-exit scan computes the plain maximum. */
  lemma {:induction false} ScanSeverityIsMax(items: seq<MarkerEntry>, running: int)
    requires 0 <= running < SEVERITY_ERROR
    requires forall k :: 0 <= k < |items| && items[k].concrete ==> Severity(items[k]) <= SEVERITY_ERROR
    ensures ScanSeverity(items, running) == if running > MaxSeverity(items) then running else MaxSeverity(items)
    decreases |items|
  {
    if items != [] {
      var tail := items[1..];
      assert forall k :: 0 <= k < |tail| ==> tail[k] == items[k + 1];
      var next := if items[0].concrete && Severity(items[0]) > running then Severity(items[0]) else running;
      if !(items[0].concrete && next == SEVERITY_ERROR) {
        ScanSeverityIsMax(tail, next);
      }
    }
  }

  /**
    When every concrete child's severity is at most the error level, the
    category's highest severity is the largest of 0 and the severities of its
    concrete children.
  */
  lemma HighestSeverityIsMax(items: seq<MarkerEntry>)
    requires forall k :: 0 <= k < |items| && items[k].concrete ==> Severity(items[k]) <= SEVERITY_ERROR
    ensures HighestSeverity(items) == MaxSeverity(items)
  {
    ScanSeverityIsMax(items, SEVERITY_INFO);
  }

  /** Once the scan has reached the error level, the children after that point are never looked at. */
  lemma {:induction false} ScanSeverityStopsAtError(items: seq<MarkerEntry>, more: seq<MarkerEntry>, running: int)
    requires running != SEVERITY_ERROR
    requires ScanSeverity(items, running) == SEVERITY_ERROR
    ensures ScanSeverity(items + more, running) == SEVERITY_ERROR
    decreases |items|
  {
    assert items != [];
    assert (items + more)[0] == items[0];
    assert (items + more)[1..] == items[1..] + more;
    var next := if items[0].concrete && Severity(items[0]) > running then Severity(items[0]) else running;
    if !(items[0].concrete && next == SEVERITY_ERROR) {
      ScanSeverityStopsAtError(items[1..], more, next);
    }
  }

  /** The category's highest severity is decided by the children up to the first one that reaches the error level. */
  lemma HighestSeverityStopsAtError(items: seq<MarkerEntry>, more: seq<MarkerEntry>)
    requires HighestSeverity(items) == SEVERITY_ERROR
    ensures HighestSeverity(items + more) == SEVERITY_ERROR
  {
    ScanSeverityStopsAtError(items, more, SEVERITY_INFO);
  }

  /** The three category labels, with the values they are formatted from. */
  datatype Description =
    | LimitLabel(name: Option<string>, limit: int, count: int)
    | OneItemLabel(name: Option<string>)
    | CountLabel(name: Option<string>, count: int)

  /** A category of the markers view. */
  class MarkerCategory {
    var refreshing: bool
    const start: int
    const end: int
    /** The lazily built child array; null until it is first asked for. */
    var children: array?<MarkerEntry>
    const name: Option<string>
    /** The cached highest severity; -1 until it is computed. */
    var severity: int
    const markers: Markers?

    /** A built child array has one slot per index from start to end. */
    ghost predicate ChildrenShape()
      reads this
    {
      children != null ==> children.Length == ChildrenCount()
    }

    ghost predicate Valid()
      reads this
    {
      ChildrenShape() && severity >= -1 && (severity >= 0 ==> children != null)
    }

    /** The children can be built: the window start..end lies inside the marker entry array. */
    predicate CanBuild()
      reads markers
    {
      markers != null && 0 <= start && start <= end + 1 && end < markers.entries.Length
    }

    /** The entries the window covers, in order. */
    ghost function Window(): seq<MarkerEntry>
      reads markers, markers.entries
      requires CanBuild()
    {
      markers.entries[start..end + 1]
    }

    /** The entries GetChildren hands out: the built children, or else the ones it would copy. */
    ghost function ChildSet(): set<MarkerEntry>
      reads this, markers, if markers != null then {markers.entries} else {}, children
      requires children != null || CanBuild()
    {
      if children != null then set k | 0 <= k < children.Length :: children[k]
      else set k | 0 <= k < |Window()| :: Window()[k]
    }

    constructor (markers: Markers?, startIndex: int, endIndex: int, categoryName: Option<string>)
      ensures Valid()
      ensures this.markers == markers && start == startIndex && end == endIndex && name == categoryName
      ensures children == null && severity == -1 && !refreshing
    {
      this.markers := markers;
      start := startIndex;
      end := endIndex;
      refreshing := false;
      name := categoryName;
      children := null;
      severity := -1;
    }

    /**
      The number of entry indices from start to end inclusive: one exactly for
      a one-index window, none exactly when end precedes start.
    */
    function ChildrenCount(): (n: int)
      ensures start <= end + 1 ==> n >= 0
      ensures n == 1 <==> start == end
      ensures n <= 0 <==> end < start
    {
      end - start + 1
    }

    /**
      The children: on the first call a fresh array holding entries start..end
      of the marker entry array, each of which now has this category; on later
      calls the same array again, with nothing read or written.
    */
    method GetChildren() returns (r: array<MarkerEntry>)
      requires ChildrenShape() && (children != null || CanBuild())
      modifies this`children, ChildSet()`category
      ensures ChildrenShape() && children == r && r.Length == ChildrenCount()
      ensures forall k :: 0 <= k < r.Length ==> r[k] in old(ChildSet())
      ensures old(children) != null ==> r == old(children) && unchanged(old(ChildSet()))
      ensures old(children) == null ==> fresh(r) && r[..] == old(Window())
      ensures old(children) == null ==> forall k :: 0 <= k < r.Length ==> r[k].category == this
    {
      ghost var handedOut := ChildSet();
      if children == null {
        var allMarkers := markers.entries;
        var totalSize := ChildrenCount();
        var window := allMarkers[start..start + totalSize];
        assert window == Window();
        assert forall k :: 0 <= k < totalSize ==> window[k] in handedOut;
        var built := new MarkerEntry[totalSize](k requires 0 <= k < totalSize => window[k]);
        children := built;
        for i := 0 to totalSize
          invariant children == built && built[..] == window
          invariant forall k :: 0 <= k < i ==> built[k].category == this
        {
          built[i].category := this;
        }
      }
      r := children;
    }

    /**
      The highest severity among the concrete children, cached: computed by
      the early-exit scan on the first call (building the children if need
      be), the cached value afterwards.
    */
    method GetHighestSeverity() returns (r: int)
      requires Valid() && (children != null || CanBuild())
      modifies this`children, this`severity, ChildSet()`category
      ensures Valid() && children != null && r == severity && r >= 0
      ensures old(severity) >= 0 ==> r == old(severity) && children == old(children) && unchanged(old(ChildSet()))
      ensures old(severity) < 0 ==> r == HighestSeverity(children[..])
      ensures old(children) != null ==> children == old(children) && unchanged(old(ChildSet()))
      ensures old(children) == null ==> children[..] == old(Window())
      ensures old(children) == null ==> forall k :: 0 <= k < children.Length ==> children[k].category == this
    {
      if severity >= 0 {
        return severity;
      }
      ghost var firstBuild := children == null;
      severity := SEVERITY_INFO;
      var items := GetChildren();
      for i := 0 to items.Length
        modifies this`severity
        invariant children == items && severity >= 0
        invariant firstBuild ==> forall k :: 0 <= k < items.Length ==> items[k].category == this
        invariant ScanSeverity(items[i..], severity) == HighestSeverity(items[..])
      {
        assert items[i..][0] == items[i] && items[i..][1..] == items[i + 1..];
        if items[i].concrete {
          var elementSeverity := items[i].AttributeValue(SEVERITY, -1);
          if elementSeverity > severity {
            severity := elementSeverity;
          }
          if severity == SEVERITY_ERROR {
            return severity;
          }
        }
      }
      r := severity;
    }

    /** The description label: the limit label over the limit, else the one-item label for one child, else the count label. */
    function GetDescription(): (d: Description)
      reads markers
      requires markers != null
      ensures d.name == name
      ensures d.LimitLabel? <==> markers.limitsEnabled && ChildrenCount() > markers.limit
      ensures d.OneItemLabel? <==> !(markers.limitsEnabled && ChildrenCount() > markers.limit) && ChildrenCount() == 1
      ensures d.LimitLabel? ==> d.limit == markers.limit && d.count == ChildrenCount()
      ensures d.CountLabel? ==> d.count == ChildrenCount() && d.count != 1
      ensures !markers.limitsEnabled ==> !d.LimitLabel?
    {
      var size := ChildrenCount();
      var limitsEnabled := markers.limitsEnabled;
      var limit := markers.limit;
      if limitsEnabled && size > limit then LimitLabel(name, limit, ChildrenCount())
      else if size == 1 then OneItemLabel(name)
      else CountLabel(name, size)
    }

    /** Discards the cached values of every child, building the children first if need be. */
    method ClearCache()
      requires ChildrenShape() && (children != null || CanBuild())
      modifies this`children, ChildSet()`category, ChildSet()`cached
      ensures ChildrenShape() && children != null
      ensures old(children) != null ==> children == old(children)
      ensures old(children) == null ==> children[..] == old(Window())
      ensures old(children) == null ==> forall k :: 0 <= k < children.Length ==> children[k].category == this
      ensures old(children) != null ==> forall e :: e in old(ChildSet()) ==> e.category == old(e.category)
      ensures forall k :: 0 <= k < children.Length ==> !children[k].cached
    {
      var items := GetChildren();
      ghost var built := set k | 0 <= k < items.Length :: items[k];
      for i := 0 to items.Length
        modifies built`cached
        invariant forall k :: 0 <= k < i ==> !items[k].cached
      {
        items[i].cached := false;
      }
    }

    /**
      Value equality: the same object, or another MarkerCategory with the same
      Markers and a name that is equal or null on both sides.  Markers is
      compared by identity.
    */
    predicate Equals(obj: object?)
      ensures Equals(obj) <==> (obj is MarkerCategory
        && (obj as MarkerCategory).markers == markers && (obj as MarkerCategory).name == name)
    {
      if this == obj then true
      else if obj == null then false
      else if !(obj is MarkerCategory) then false
      else
        var other := obj as MarkerCategory;
        (if markers == null then other.markers == null else markers == other.markers)
        && (if name.None? then other.name.None? else other.name.Some? && name.value == other.name.value)
    }

    /**
      31 * (31 * 1 + hash(markers)) + hash(name) in `int` arithmetic, a null
      counting 0: the polynomial 31 * 31 + 31 * hash(markers) + hash(name)
      reduced once to `int`, so the overflow of the inner step does not matter.
    */
    function HashCode(): (h: int32)
      ensures h == Wrap32(31 * 31 + 31 * (if markers == null then 0 else markers.hash as int)
                          + (if name.None? then 0 else StringHash(name.value) as int))
      ensures markers == null && name.None? ==> h as int == 961
    {
      var prime := 31;
      var markersHash := if markers == null then 0 else markers.hash as int;
      var nameHash := if name.None? then 0 else StringHash(name.value) as int;
      var withMarkers := Wrap32(prime * 1 + markersHash);
      WrapInner(prime, prime * 1 + markersHash, nameHash);
      Wrap32(prime * withMarkers as int + nameHash)
    }
  }

  /** Equals is reflexive and symmetric, and equal categories have equal hash codes. */
  lemma EqualsContract(a: MarkerCategory, b: MarkerCategory)
    ensures a.Equals(a)
    ensures a.Equals(b) <==> b.Equals(a)
    ensures a.Equals(b) ==> a.HashCode() == b.HashCode()
  {
  }

  /** Equals is transitive. */
  lemma EqualsTransitive(a: MarkerCategory, b: MarkerCategory, c: MarkerCategory)
    requires a.Equals(b) && b.Equals(c)
    ensures a.Equals(c)
  {
  }
}
