/**
 * `Link`: a directed edge between two pages, held as the two pages'
 * `getUrl()` strings. It has no mutators, so it is a value; PHP's `==` on
 * two `Link` objects compares their fields, which is datatype equality.
 */
module Links {

  datatype Link = Link(fromPageUrl: string, toPageUrl: string) {

    function GetFromPageUrl(): string {
      fromPageUrl
    }

    function GetToPageUrl(): string {
      toPageUrl
    }

    /** `!is_null(from_page_url)`; the constructor only accepts strings. */
    predicate HasFromPageUrl() {
      true
    }

    /** `!is_null(to_page_url)`; the constructor only accepts strings. */
    predicate HasToPageUrl() {
      true
    }
  }

  /** The getters return exactly what the constructor was given. */
  lemma GettersReturnArguments(from: string, to: string)
    ensures Link(from, to).GetFromPageUrl() == from
    ensures Link(from, to).GetToPageUrl() == to
    ensures Link(from, to).HasFromPageUrl() && Link(from, to).HasToPageUrl()
  {
  }

  /**
   * Two links are equal exactly when both ends are; in particular `(a, b)`
   * and `(b, a)` are different links unless `a == b`.
   */
  lemma EqualityIsPairwise(l1: Link, l2: Link)
    ensures l1 == l2 <==> l1.GetFromPageUrl() == l2.GetFromPageUrl() && l1.GetToPageUrl() == l2.GetToPageUrl()
    ensures Link(l1.fromPageUrl, l1.toPageUrl) == Link(l1.toPageUrl, l1.fromPageUrl) <==> l1.fromPageUrl == l1.toPageUrl
  {
  }
}
