/// The court tabs of a club page: one tab per court type, in the order the
/// types first appear, each listing the courts of that type.
module CourtList {
  import opened Base
  import opened Types

  /** `courts.map(court => court.type)`. */
  function TypesOf(courts: seq<Court>): (ts: seq<string>)
    ensures |ts| == |courts| && forall i :: 0 <= i < |courts| ==> ts[i] == courts[i].courtType
  {
    if courts == [] then [] else TypesOf(courts[..|courts| - 1]) + [courts[|courts| - 1].courtType]
  }

  /** The position of the first occurrence of x. */
  function IndexOf(xs: seq<string>, x: string): (k: nat)
    requires x in xs
    ensures k < |xs| && xs[k] == x && forall j :: 0 <= j < k ==> xs[j] != x
  {
    if xs[0] == x then 0 else 1 + IndexOf(xs[1..], x)
  }

  /** A first occurrence inside a prefix is also the first occurrence in the whole. */
  lemma IndexOfPrefix(xs: seq<string>, n: nat, x: string)
    requires n <= |xs| && x in xs[..n]
    ensures x in xs && IndexOf(xs, x) == IndexOf(xs[..n], x)
  {
    var k := IndexOf(xs[..n], x);
    assert xs[k] == x;
  }

  /** `Array.from(new Set(xs))`: each value once, in order of first insertion. */
  function Distinct(xs: seq<string>): (r: seq<string>)
    ensures NoDuplicates(r)
    ensures forall x :: x in r <==> x in xs
    ensures forall i, j :: 0 <= i < j < |r| ==> IndexOf(xs, r[i]) < IndexOf(xs, r[j])
  {
    if xs == [] then []
    else
      var n := |xs| - 1;
      var init := xs[..n];
      var d := Distinct(init);
      var last := xs[n];
      assert xs == init + [last];
      forall i | 0 <= i < |d|
        ensures IndexOf(xs, d[i]) == IndexOf(init, d[i])
      {
        IndexOfPrefix(xs, n, d[i]);
      }
      if last in d then d
      else
        assert last !in init;
        assert IndexOf(xs, last) == n;
        d + [last]
  }

  /** `courtTypes`. */
  function CourtTypes(courts: seq<Court>): seq<string> {
    Distinct(TypesOf(courts))
  }

  /** Every court's type has a tab, every tab is some court's type, no tab is
      repeated, and the tabs come in the order their types first appear. */
  lemma CourtTypesAreTheTypes(courts: seq<Court>)
    ensures NoDuplicates(CourtTypes(courts))
    ensures forall i :: 0 <= i < |courts| ==> courts[i].courtType in CourtTypes(courts)
    ensures forall t :: t in CourtTypes(courts) ==> exists i :: 0 <= i < |courts| && courts[i].courtType == t
    ensures forall i, j :: 0 <= i < j < |CourtTypes(courts)| ==>
      IndexOf(TypesOf(courts), CourtTypes(courts)[i]) < IndexOf(TypesOf(courts), CourtTypes(courts)[j])
  {
    var ts := TypesOf(courts);
    forall i | 0 <= i < |courts|
      ensures courts[i].courtType in CourtTypes(courts)
    {
      assert ts[i] in ts;
    }
    forall t | t in CourtTypes(courts)
      ensures exists i :: 0 <= i < |courts| && courts[i].courtType == t
    {
      var i := IndexOf(ts, t);
      assert courts[i].courtType == t;
    }
  }

  /** The courts listed under tab t: `courts.filter(court => court.type === type)`. */
  function CourtsOfType(courts: seq<Court>, t: string): (group: seq<Court>)
    ensures forall c :: c in group <==> c in courts && c.courtType == t
  {
    Filter(courts, (c: Court) => c.courtType == t)
  }

  /** The groups partition the courts: each copy of a court is listed under its own
      type's tab, under no other, and in the original relative order. */
  lemma GroupsPartition(courts: seq<Court>, c: Court, t: string)
    ensures multiset(CourtsOfType(courts, t))[c] == if c.courtType == t then multiset(courts)[c] else 0
    ensures IsSubsequence(CourtsOfType(courts, t), courts)
  {
    FilterMultiplicity(courts, (x: Court) => x.courtType == t, c);
    FilterIsSubsequence(courts, (x: Court) => x.courtType == t);
  }

  /** Of the rendered tabs, exactly one lists a given court: the one of its type. */
  lemma ExactlyOneTab(courts: seq<Court>, i: nat)
    requires i < |courts|
    ensures var tabs := CourtTypes(courts);
      exists k :: 0 <= k < |tabs| && courts[i] in CourtsOfType(courts, tabs[k])
    ensures var tabs := CourtTypes(courts);
      forall k, l :: 0 <= k < l < |tabs| ==>
        !(courts[i] in CourtsOfType(courts, tabs[k]) && courts[i] in CourtsOfType(courts, tabs[l]))
  {
    CourtTypesAreTheTypes(courts);
    var tabs := CourtTypes(courts);
    var k :| 0 <= k < |tabs| && tabs[k] == courts[i].courtType;
    assert courts[i] in courts;
  }

  /** `defaultValue={courtTypes[0]}`: the first court's type, none without courts. */
  function DefaultTab(courts: seq<Court>): (tab: Option<string>)
    ensures tab.None? <==> courts == []
    ensures tab.Some? ==> tab.value == courts[0].courtType
  {
    var tabs := CourtTypes(courts);
    CourtTypesAreTheTypes(courts);
    if tabs == [] then
      None
    else
      var ts := TypesOf(courts);
      assert courts != [] && ts[0] in tabs;
      var k :| 0 <= k < |tabs| && tabs[k] == ts[0];
      assert IndexOf(ts, ts[0]) == 0;
      Some(tabs[0])
  }
}
