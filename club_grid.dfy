/// The result cards of the search page: per club its court count, its lowest
/// hourly price and its best-rated court, whose name is shown without the
/// club's name in front.
module ClubGrid {
  import opened Base
  import opened Types

  // ------------------------------------------------------------ best court

  /** The courts with a positive rating, missing ratings read as 0. */
  function RatedCourts(club: Club): (rs: seq<Court>)
    ensures forall c :: c in rs <==> c in CourtsOf(club) && RatingOrZero(c) > 0.0
    ensures IsSubsequence(rs, CourtsOf(club))
  {
    var rs := Filter(CourtsOf(club), (c: Court) => RatingOrZero(c) > 0.0);
    FilterIsSubsequence(CourtsOf(club), (c: Court) => RatingOrZero(c) > 0.0);
    rs
  }

  /** `rs[..n].reduce((a, b) => a.rating > b.rating ? a : b)`, as an index: the
      fold keeps its accumulator only when it is strictly better, so it ends on
      the last court of the highest rating. */
  function FoldBest(rs: seq<Court>, n: nat): (k: nat)
    requires 1 <= n <= |rs|
    ensures k < n
    ensures forall i :: 0 <= i < n ==> RatingOrZero(rs[i]) <= RatingOrZero(rs[k])
    ensures forall i :: k < i < n ==> RatingOrZero(rs[i]) < RatingOrZero(rs[k])
  {
    if n == 1 then 0
    else
      var k := FoldBest(rs, n - 1);
      if RatingOrZero(rs[k]) > RatingOrZero(rs[n - 1]) then k else n - 1
  }

  /** `getCourtRatings(club).bestCourt`: nothing when no court has a positive rating;
      otherwise a rated court of the club whose rating no court exceeds and after
      which no rated court has the same rating. */
  function BestCourt(club: Club): (best: Option<Court>)
    ensures best.None? <==> forall c :: c in CourtsOf(club) ==> RatingOrZero(c) <= 0.0
    ensures best.Some? ==>
      best.value in CourtsOf(club) && RatingOrZero(best.value) > 0.0
      && forall c :: c in CourtsOf(club) ==> RatingOrZero(c) <= RatingOrZero(best.value)
    ensures best.Some? ==> exists k :: (0 <= k < |RatedCourts(club)| && RatedCourts(club)[k] == best.value
      && forall j :: k < j < |RatedCourts(club)| ==> RatingOrZero(RatedCourts(club)[j]) < RatingOrZero(best.value))
  {
    var rs := RatedCourts(club);
    if |rs| == 0 then
      assert forall c :: c in CourtsOf(club) ==> RatingOrZero(c) <= 0.0 by {
        forall c | c in CourtsOf(club) ensures RatingOrZero(c) <= 0.0 {
          assert c !in rs;
        }
      }
      None
    else
      var k := FoldBest(rs, |rs|);
      assert rs[k] in rs;
      assert forall c :: c in CourtsOf(club) ==> RatingOrZero(c) <= RatingOrZero(rs[k]) by {
        forall c | c in CourtsOf(club) ensures RatingOrZero(c) <= RatingOrZero(rs[k]) {
          if RatingOrZero(c) > 0.0 {
            assert c in rs;
            var i :| 0 <= i < |rs| && rs[i] == c;
          }
        }
      }
      Some(rs[k])
  }

  /** Of two courts with the same rating the later one is shown. */
  lemma TieGoesToLaterCourt(club: Club, a: Court, b: Court)
    requires club.courts == Some([a, b])
    requires a != b && RatingOrZero(a) == RatingOrZero(b) > 0.0
    ensures BestCourt(club) == Some(b)
  {
    var rs := RatedCourts(club);
    assert a in rs && b in rs;
    assert rs == [a, b] by {
      var p := (c: Court) => RatingOrZero(c) > 0.0;
      assert [a, b][1..] == [b] && [b][1..] == [];
    }
  }

  // ------------------------------------------------------------ price

  /** A number or JavaScript's `Infinity`. */
  datatype Extended = Finite(value: real) | PosInfinity

  /** `Math.min(...xs)`, which is `Infinity` for no arguments. */
  function MinOf(xs: seq<real>): (m: Extended)
    ensures m.PosInfinity? <==> xs == []
    ensures m.Finite? ==> (forall i :: 0 <= i < |xs| ==> m.value <= xs[i])
                          && exists i :: 0 <= i < |xs| && xs[i] == m.value
  {
    if xs == [] then PosInfinity
    else
      match MinOf(xs[1..])
      case PosInfinity => Finite(xs[0])
      case Finite(v) =>
        assert forall i :: 1 <= i < |xs| ==> xs[i] == xs[1..][i - 1];
        Finite(if xs[0] <= v then xs[0] else v)
  }

  /** `courts.map(c => c.price_per_hour || 0)`. */
  function PricesOf(cs: seq<Court>): (ps: seq<real>)
    ensures |ps| == |cs| && forall i :: 0 <= i < |cs| ==> ps[i] == PriceOrZero(cs[i])
  {
    if cs == [] then [] else [PriceOrZero(cs[0])] + PricesOf(cs[1..])
  }

  /** The "From" price: 0 without a courts list, `Infinity` for an empty one, and
      otherwise the lowest price of a court (missing prices read as 0). */
  function FromPrice(club: Club): (r: Extended)
    ensures club.courts.None? ==> r == Finite(0.0)
    ensures club.courts == Some([]) ==> r == PosInfinity
    ensures club.courts.Some? && club.courts.value != [] ==>
      r.Finite? && (forall c :: c in club.courts.value ==> r.value <= PriceOrZero(c))
      && exists c :: c in club.courts.value && PriceOrZero(c) == r.value
  {
    match club.courts
    case None =>
      assert [0.0][0] == 0.0;
      MinOf([0.0])
    case Some(cs) =>
      MinOfPrices(cs);
      MinOf(PricesOf(cs))
  }

  /** The minimum of the prices is below every court's price and is one of them. */
  lemma MinOfPrices(cs: seq<Court>)
    ensures var m := MinOf(PricesOf(cs));
      m.Finite? ==> (forall c :: c in cs ==> m.value <= PriceOrZero(c))
                    && exists c :: c in cs && PriceOrZero(c) == m.value
  {
    var m := MinOf(PricesOf(cs));
    if m.Finite? {
      forall c | c in cs ensures m.value <= PriceOrZero(c) {
        var i :| 0 <= i < |cs| && cs[i] == c;
      }
      var i :| 0 <= i < |cs| && PricesOf(cs)[i] == m.value;
      assert cs[i] in cs;
    }
  }

  // ------------------------------------------------------------ labels

  /** `club.courts?.length || 0`. */
  function CourtCount(club: Club): (n: nat)
    ensures n == |CourtsOf(club)|
    ensures club.courts.None? ==> n == 0
  {
    match club.courts
    case None => 0
    case Some(cs) => |cs|
  }

  /** The court count and its noun: "1 court", "0 courts", "3 courts". */
  function CourtCountText(club: Club): (text: string)
    ensures var n := CourtCount(club);
      |text| > |Decimal(n)| + 1 && text[..|Decimal(n)|] == Decimal(n) && text[|Decimal(n)|] == ' '
      && (text[|Decimal(n)| + 1..] == "court" <==> n == 1)
  {
    var n := CourtCount(club);
    var noun := if n == 1 then "court" else "courts";
    var text := Decimal(n) + " " + noun;
    assert text[..|Decimal(n)|] == Decimal(n) && text[|Decimal(n)| + 1..] == noun;
    text
  }

  /** An occurrence of `pat` in `s` at position i. */
  predicate MatchesAt(s: string, pat: string, i: nat) {
    i + |pat| <= |s| && s[i..i + |pat|] == pat
  }

  /** The first occurrence of `pat` at or after position `from`. */
  function FindFrom(s: string, pat: string, from: nat): (r: Option<nat>)
    requires from <= |s|
    ensures r.Some? ==> from <= r.value && MatchesAt(s, pat, r.value)
                        && forall j :: from <= j < r.value ==> !MatchesAt(s, pat, j)
    ensures r.None? ==> forall j :: from <= j ==> !MatchesAt(s, pat, j)
    decreases |s| - from
  {
    if MatchesAt(s, pat, from) then Some(from)
    else if from == |s| then None
    else FindFrom(s, pat, from + 1)
  }

  /** `s.replace(pat, rep)` with a string pattern: only the first occurrence is replaced. */
  function ReplaceFirst(s: string, pat: string, rep: string): (r: string)
    ensures FindFrom(s, pat, 0).None? ==> r == s
    ensures FindFrom(s, pat, 0).Some? ==> var i := FindFrom(s, pat, 0).value;
      r == s[..i] + rep + s[i + |pat|..]
  {
    match FindFrom(s, pat, 0)
    case None => s
    case Some(i) => s[..i] + rep + s[i + |pat|..]
  }

  /** The best court's name as shown: `name.replace(club.name + ' - ', '')`. */
  function ShortName(club: Club, court: Court): (name: string)
    ensures |name| <= |court.name|
    ensures |name| == |court.name| - |club.name + " - "| || name == court.name
  {
    ReplaceFirst(court.name, club.name + " - ", "")
  }

  /** A court named "<club> - <rest>" is shown as "<rest>". */
  lemma ShortNameStripsClubPrefix(club: Club, court: Court, rest: string)
    requires court.name == club.name + " - " + rest
    ensures ShortName(club, court) == rest
  {
    var pat := club.name + " - ";
    assert MatchesAt(court.name, pat, 0) by {
      assert court.name[..|pat|] == pat;
    }
    assert court.name[|pat|..] == rest;
  }

  /** A name without the club's prefix anywhere is shown unchanged. */
  lemma ShortNameKeepsOtherNames(club: Club, court: Court)
    requires forall j :: !MatchesAt(court.name, club.name + " - ", j)
    ensures ShortName(club, court) == court.name
  {
  }

  /** `replace` matches anywhere, not only in front: at club "A" the court
      "B A - 1" is shown as "B 1". */
  lemma ShortNameReplacesInside()
    ensures ShortName(Club("c", "A", "", None, None, None), Court("k", "B A - 1", "", None, None, None)) == "B 1"
  {
    var s, pat := "B A - 1", "A" + " - ";
    assert MatchesAt(s, pat, 2) by { assert s[2..6] == pat; }
    assert FindFrom(s, pat, 2) == Some(2);
    assert !MatchesAt(s, pat, 1) by { assert s[1..5][0] != pat[0]; }
    assert FindFrom(s, pat, 1) == Some(2);
    assert !MatchesAt(s, pat, 0) by { assert s[0..4][0] != pat[0]; }
    assert FindFrom(s, pat, 0) == Some(2);
    assert s[..2] + "" + s[6..] == "B 1";
  }

  // ------------------------------------------------------------ the grid

  /** What the best-court part of a card shows. */
  datatype BestView = BestView(rating: real, courtType: string, shortName: string)

  /** One card: its link, title, city, court count, price and best court. */
  datatype CardView = CardView(href: string, name: string, city: string, courtCount: string,
                               fromPrice: Extended, best: Option<BestView>)

  datatype GridView = NoClubs | Cards(cards: seq<CardView>)

  function CardFor(club: Club): (card: CardView)
    ensures card.href == "/clubs/" + club.id && card.name == club.name && card.city == club.city
    ensures card.courtCount == CourtCountText(club) && card.fromPrice == FromPrice(club)
    ensures card.best.None? <==> BestCourt(club).None?
    ensures card.best.Some? ==> card.best.value.rating == RatingOrZero(BestCourt(club).value)
  {
    var best := match BestCourt(club)
      case None => None
      case Some(c) => Some(BestView(RatingOrZero(c), c.courtType, ShortName(club, c)));
    CardView("/clubs/" + club.id, club.name, club.city, CourtCountText(club), FromPrice(club), best)
  }

  function CardsFor(clubs: seq<Club>): (cards: seq<CardView>)
    ensures |cards| == |clubs| && forall i :: 0 <= i < |clubs| ==> cards[i] == CardFor(clubs[i])
  {
    if clubs == [] then [] else [CardFor(clubs[0])] + CardsFor(clubs[1..])
  }

  /** `ClubGrid`: the empty state for no clubs, otherwise one card per club in order. */
  function Render(clubs: Option<seq<Club>>): (v: GridView)
    ensures v.NoClubs? <==> clubs.None? || clubs.value == []
    ensures v.Cards? ==> (|v.cards| == |clubs.value|
      && forall i :: 0 <= i < |v.cards| ==> v.cards[i] == CardFor(clubs.value[i]))
  {
    if clubs.None? || clubs.value == [] then NoClubs else Cards(CardsFor(clubs.value))
  }
}
