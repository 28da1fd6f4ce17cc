/// The records the search pages receive from the database: a club with its
/// courts, and each court with its facilities (the nested `courts (...)` and
/// `court_facilities (...)` selection). Numeric columns are reals; a column the
/// row may lack (a nullable column, or a nested list the query did not return)
/// is an Option.
module Types {
  import opened Base

  datatype Facility = Facility(id: string, courtId: string, name: string)

  datatype Court = Court(
    id: string,
    name: string,
    courtType: string,
    pricePerHour: Option<real>,
    rating: Option<real>,
    courtFacilities: Option<seq<Facility>>)

  datatype Club = Club(
    id: string,
    name: string,
    city: string,
    location: Option<string>,
    courts: Option<seq<Court>>,
    distance: Option<real>)

  /** The rating a comparison sees: JavaScript turns a missing rating into 0
      both in `null > x` and in `court.rating || 0`. */
  function RatingOrZero(c: Court): real {
    c.rating.GetOr(0.0)
  }

  /** `court.price_per_hour || 0`. */
  function PriceOrZero(c: Court): real {
    c.pricePerHour.GetOr(0.0)
  }

  /** The courts of a club, with a missing list read as empty (`club.courts || []`). */
  function CourtsOf(club: Club): seq<Court> {
    club.courts.GetOr([])
  }

  /** The facility names of a court (`court.court_facilities?.map(f => f.name) || []`). */
  function FacilityNames(c: Court): set<string> {
    match c.courtFacilities
    case None => {}
    case Some(fs) => set i | 0 <= i < |fs| :: fs[i].name
  }
}
