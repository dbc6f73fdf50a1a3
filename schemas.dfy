/** The shared input schemas and the slug-uniqueness check of the catalog procedures. */
module Schemas {
  import opened Outcomes
  import opened Entities

  predicate IsSlugChar(c: char) {
    'a' <= c <= 'z' || '0' <= c <= '9' || c == '-'
  }

  /** The regular expression `^[a-z0-9-]+$`: one or more characters of the class. */
  predicate MatchesSlugPattern(s: string) {
    |s| >= 1 && IsSlugChar(s[0]) && (|s| == 1 || MatchesSlugPattern(s[1..]))
  }

  /** `slugSchema`: at least two characters, and the pattern. */
  predicate ValidSlug(s: string) {
    |s| >= 2 && MatchesSlugPattern(s)
  }

  lemma {:induction false} PatternMeaning(s: string)
    ensures MatchesSlugPattern(s) <==> |s| >= 1 && forall i :: 0 <= i < |s| ==> IsSlugChar(s[i])
  {
    if |s| > 1 {
      PatternMeaning(s[1..]);
      assert forall i :: 1 <= i < |s| ==> s[i] == s[1..][i - 1];
    }
  }

  /** A slug is accepted exactly when it has two or more characters, each a lower-case
      letter, a digit or a hyphen. */
  lemma ValidSlugMeaning(s: string)
    ensures ValidSlug(s) <==> |s| >= 2 && forall i :: 0 <= i < |s| ==> IsSlugChar(s[i])
  {
    PatternMeaning(s);
  }

  /** The refinement of `dateRangeSchema`. Only a schema built on `dateRangeSchema` itself
      applies it; spreading its `.shape` into another schema does not carry it. The
      comparison is strict, so equal dates are rejected. */
  function CheckDateRange(startDate: int, endDate: int): (r: Outcome)
    ensures r == Pass <==> startDate < endDate
    ensures r.Fail? ==> r.code == BadRequest
  {
    if endDate > startDate then Pass else Fail(BadRequest)
  }

  datatype Pagination = Pagination(page: int, limit: int)

  /** `paginationSchema`: `page` defaults to 1 and has no bound; `limit` defaults to 10 and
      must lie in [1, 100]. */
  function ParsePagination(page: Option<int>, limit: Option<int>): (r: Result<Pagination>)
    ensures r.Ok? <==> (limit.None? || 1 <= limit.value <= 100)
    ensures r.Err? ==> r.code == BadRequest
    ensures r.Ok? ==> 1 <= r.value.limit <= 100
    ensures r.Ok? ==> r.value.page == (if page.Some? then page.value else 1)
    ensures r.Ok? ==> r.value.limit == (if limit.Some? then limit.value else 10)
  {
    if limit.Some? && !(1 <= limit.value <= 100) then Err(BadRequest)
    else Ok(Pagination(
      match page case Some(p) => p case None => 1,
      match limit case Some(l) => l case None => 10))
  }

  /** `activeFilterSchema`: `includeInactive` defaults to false. */
  function IncludeInactive(includeInactive: Option<bool>): (r: bool)
    ensures r <==> includeInactive == Some(true)
  {
    match includeInactive case Some(b) => b case None => false
  }

  /** Some row other than the excluded one holds `slug`. */
  ghost predicate SlugHeldByOther<T>(rows: seq<T>, id: T -> Id, slugOf: T -> string, slug: string, excludeId: Option<Id>) {
    exists i :: 0 <= i < |rows| && slugOf(rows[i]) == slug && (excludeId.None? || id(rows[i]) != excludeId.value)
  }

  /** `validateSlugUniqueness`: one read of the table (`findFirst` on the slug, skipping
      `excludeId` when one is given); it throws a plain `Error`, not a typed CONFLICT, when a
      row is found. */
  function ValidateSlugUniqueness<T>(rows: seq<T>, id: T -> Id, slugOf: T -> string, slug: string, excludeId: Option<Id>): (r: Outcome)
    ensures r.Fail? <==> SlugHeldByOther(rows, id, slugOf, slug, excludeId)
    ensures r.Fail? ==> r.code == InternalError
  {
    if rows == [] then Pass
    else if slugOf(rows[0]) == slug && (excludeId.None? || id(rows[0]) != excludeId.value) then Fail(InternalError)
    else
      var rest := ValidateSlugUniqueness(rows[1..], id, slugOf, slug, excludeId);
      assert SlugHeldByOther(rows, id, slugOf, slug, excludeId) <==> SlugHeldByOther(rows[1..], id, slugOf, slug, excludeId) by {
        if SlugHeldByOther(rows, id, slugOf, slug, excludeId) {
          var i :| 0 <= i < |rows| && slugOf(rows[i]) == slug && (excludeId.None? || id(rows[i]) != excludeId.value);
          assert rows[1..][i - 1] == rows[i];
        }
        if SlugHeldByOther(rows[1..], id, slugOf, slug, excludeId) {
          var i :| 0 <= i < |rows[1..]| && slugOf(rows[1..][i]) == slug && (excludeId.None? || id(rows[1..][i]) != excludeId.value);
          assert rows[i + 1] == rows[1..][i];
        }
      }
      rest
  }

  /** When the only holder of the slug is the record being updated, the check passes. */
  lemma OwnSlugPasses<T>(rows: seq<T>, id: T -> Id, slugOf: T -> string, slug: string, self: Id)
    requires forall i :: 0 <= i < |rows| && slugOf(rows[i]) == slug ==> id(rows[i]) == self
    ensures ValidateSlugUniqueness(rows, id, slugOf, slug, Some(self)) == Pass
  {
  }
}
