/** What the route query gives on the application's own table. */
module RouteExamples {
  import opened RouteTable
  import Ascii

  lemma ChennaiNormalized()
    ensures NormalizeCity("chennai") == "Chennai"
  {
    Ascii.StripTrimmed("chennai");
  }

  lemma MumbaiNormalized()
    ensures NormalizeCity(" mUMBAI ") == "Mumbai"
  {
    assert Ascii.LeadingSpaces(" mUMBAI ") == 1;
    assert Ascii.TrailingSpaces("mUMBAI ") == 1;
    assert Ascii.Strip(" mUMBAI ") == "mUMBAI";
  }

  lemma PuneNormalized()
    ensures NormalizeCity("pune") == "Pune"
  {
    Ascii.StripTrimmed("pune");
  }

  lemma ChennaiMumbaiWritten()
    ensures ("Chennai", "Mumbai") in BaseRoutes && BaseRoutes[("Chennai", "Mumbai")] == 1330
  {
  }

  lemma PuneNotWritten()
    ensures ("Chennai", "Pune") !in BaseRoutes && ("Pune", "Chennai") !in BaseRoutes
  {
  }

  /** Chennai-Mumbai is in the queried table in both directions. */
  lemma ChennaiMumbaiBothWays()
    ensures ("Chennai", "Mumbai") in Routes && Routes[("Chennai", "Mumbai")] == 1330
    ensures ("Mumbai", "Chennai") in Routes && Routes[("Mumbai", "Chennai")] == 1330
  {
    ChennaiMumbaiWritten();
    RoutesTable();
    assert Reverse(("Chennai", "Mumbai")) == ("Mumbai", "Chennai");
  }

  /** Loosely typed names are tidied and found. */
  lemma ChennaiToMumbai()
    ensures RouteResult(Routes, "chennai", " mUMBAI ", "") == DistanceMessage("Chennai", "Mumbai", 1330)
  {
    ChennaiNormalized();
    MumbaiNormalized();
    ChennaiMumbaiBothWays();
  }

  /** The reverse direction, which the written table does not list, is found
      with the same distance. */
  lemma MumbaiToChennai()
    ensures RouteResult(Routes, " mUMBAI ", "chennai", "") == DistanceMessage("Mumbai", "Chennai", 1330)
  {
    ChennaiNormalized();
    MumbaiNormalized();
    ChennaiMumbaiBothWays();
  }

  /** A city missing from the table gives the no-route text. */
  lemma ChennaiPune()
    ensures RouteResult(Routes, "chennai", "pune", "") == NoRouteMessage("Chennai", "Pune")
  {
    ChennaiNormalized();
    PuneNormalized();
    PuneNotWritten();
    RoutesTable();
  }

  /** An empty entry leaves the previous result as it was. */
  lemma EmptyEntryKeepsResult(previous: string)
    ensures RouteResult(Routes, "", "Mumbai", previous) == previous
    ensures RouteResult(Routes, "Chennai", "", previous) == previous
  {
  }
}
