/** The filter panel (src/components/AlumniFilters.js): the options it
    offers, the record it keeps and reports on every change, and the tags
    that show the active filters. The burger button and the panel's
    open/closed state are presentation only and are not modelled. */
module AlumniFilters {
  import opened Options
  import opened Text
  import opened Alumni
  import opened Collections
  import opened AlumniService

  datatype FilterField = GraduationYearField | CountryField | PromotionTypeField

  function Get(f: Filters, field: FilterField): string {
    match field
    case GraduationYearField => f.graduationYear
    case CountryField => f.country
    case PromotionTypeField => f.promotionType
  }

  /** `{ ...filters, [filterType]: value }`: that field takes the value and
      the other two keep theirs. */
  function Set(f: Filters, field: FilterField, value: string): (r: Filters)
    ensures Get(r, field) == value
    ensures forall other :: other != field ==> Get(r, other) == Get(f, other)
  {
    match field
    case GraduationYearField => f.(graduationYear := value)
    case CountryField => f.(country := value)
    case PromotionTypeField => f.(promotionType := value)
  }

  /** Setting a field to the value it already has changes nothing, and a
      second setting of the same field overrides the first. */
  lemma SetLaws(f: Filters, field: FilterField, a: string, b: string)
    ensures Set(f, field, Get(f, field)) == f
    ensures Set(Set(f, field, a), field, b) == Set(f, field, b)
  {
  }

  /** The options offered by the three drop-down lists: the years newest
      first, the countries and promotion types in sort order, each once. */
  datatype FilterOptions = FilterOptions(graduationYears: seq<int>, countries: seq<string>, promotionTypes: seq<string>)

  /** `filterOptions`: the panel computes the same lists as the service. */
  function OptionsOf(alumni: seq<Entity>): (r: FilterOptions)
    ensures StrictlyDescending(r.graduationYears)
    ensures StrictlyAscending(r.countries) && StrictlyAscending(r.promotionTypes)
    ensures forall y :: y in r.graduationYears <==> exists i :: 0 <= i < |alumni| && alumni[i].graduationYear == y
    ensures forall c :: c in r.countries <==> exists i :: 0 <= i < |alumni| && alumni[i].country == c
    ensures forall t :: t in r.promotionTypes <==> exists i :: 0 <= i < |alumni| && alumni[i].promotionType == t
  {
    FilterOptions(AvailableYears(alumni), AvailableCountries(alumni), AvailablePromotionTypes(alumni))
  }

  /** The panel's state after a change, and the record it reports to the
      map through `onFilterChange`. */
  datatype Change = Change(state: Filters, reported: Filters)

  /** `handleFilterChange`: the new record becomes the state and is
      reported as it is. */
  function HandleFilterChange(f: Filters, field: FilterField, value: string): (r: Change)
    ensures r.reported == r.state
    ensures Get(r.state, field) == value
    ensures forall other :: other != field ==> Get(r.state, other) == Get(f, other)
  {
    var next := Set(f, field, value);
    Change(next, next)
  }

  /** `clearAllFilters`: every field back to ''. */
  function ClearAllFilters(): (r: Change)
    ensures r.reported == r.state
    ensures !HasActiveFilters(r.state)
    ensures forall field :: Get(r.state, field) == ""
  {
    Change(NoFilters, NoFilters)
  }

  /** The label of a tag. */
  function TagLabel(field: FilterField): string {
    match field
    case GraduationYearField => "Année: "
    case CountryField => "Pays: "
    case PromotionTypeField => "Type: "
  }

  /** One tag for each non-empty field, in the panel's order: year,
      country, promotion type. */
  function Tags(f: Filters): (r: seq<FilterField>)
    ensures forall field :: field in r <==> Get(f, field) != ""
    ensures |r| <= 3
  {
    (if f.graduationYear != "" then [GraduationYearField] else [])
      + (if f.country != "" then [CountryField] else [])
      + (if f.promotionType != "" then [PromotionTypeField] else [])
  }

  /** The tag area is shown exactly when some filter is active. */
  lemma TagsShownIffActive(f: Filters)
    ensures Tags(f) != [] <==> HasActiveFilters(f)
  {
    if HasActiveFilters(f) {
      var field :| Get(f, field) != "";
      assert field in Tags(f);
    }
  }

  /** The × of a tag sets that field to '': its tag disappears and the other
      tags stay. */
  lemma RemoveTagKeepsOthers(f: Filters, field: FilterField)
    ensures var r := HandleFilterChange(f, field, "").state;
      && field !in Tags(r)
      && (forall other :: other != field ==> (other in Tags(r) <==> other in Tags(f)))
  {
  }

  /** A record holding only the decimal text of a year matches exactly the
      members of that year. */
  lemma YearRecordMatches(y: int)
    ensures forall e :: Matches(e, Filters(IntToString(y), "", "")) <==> e.graduationYear == y
  {
    ParseIntRoundTrip(y);
  }

  lemma FilterMembership(alumni: seq<Entity>, f: Filters, e: Entity)
    ensures e in FilterAlumni(alumni, f) <==> e in alumni && Matches(e, f)
  {
  }

  /** The year options carry the year as its decimal text. Choosing one
      keeps exactly the members who graduated that year, and never leaves
      the map empty. */
  lemma YearOptionSelectsThatYear(alumni: seq<Entity>, y: int)
    ensures var f := HandleFilterChange(NoFilters, GraduationYearField, IntToString(y)).reported;
      forall e :: e in FilterAlumni(alumni, f) <==> e in alumni && e.graduationYear == y
    ensures y in OptionsOf(alumni).graduationYears ==>
      FilterAlumni(alumni, HandleFilterChange(NoFilters, GraduationYearField, IntToString(y)).reported) != []
  {
    var f := HandleFilterChange(NoFilters, GraduationYearField, IntToString(y)).reported;
    assert f == Filters(IntToString(y), "", "");
    YearRecordMatches(y);
    forall e
      ensures e in FilterAlumni(alumni, f) <==> e in alumni && e.graduationYear == y
    {
      FilterMembership(alumni, f, e);
    }
    if y in OptionsOf(alumni).graduationYears {
      var i :| 0 <= i < |alumni| && alumni[i].graduationYear == y;
      assert alumni[i] in FilterAlumni(alumni, f);
    }
  }

  /** Choosing a country from the list keeps exactly that country's members,
      and some member is always left. */
  lemma CountryOptionSelectsThatCountry(alumni: seq<Entity>, c: string)
    requires c in OptionsOf(alumni).countries && c != ""
    ensures var f := HandleFilterChange(NoFilters, CountryField, c).reported;
      && FilterAlumni(alumni, f) != []
      && forall e :: e in FilterAlumni(alumni, f) <==> e in alumni && e.country == c
  {
    var f := HandleFilterChange(NoFilters, CountryField, c).reported;
    assert f == Filters("", c, "");
    forall e
      ensures e in FilterAlumni(alumni, f) <==> e in alumni && e.country == c
    {
      FilterMembership(alumni, f, e);
    }
    var i :| 0 <= i < |alumni| && alumni[i].country == c;
    assert alumni[i] in FilterAlumni(alumni, f);
  }
}
