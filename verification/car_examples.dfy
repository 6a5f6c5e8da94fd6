/** What looking up the rows Cars.csv is created with gives. */
module CarExamples {
  import Ascii
  import opened Lines
  import opened CarLookup

  /** The keys of the default plates. */
  lemma DefaultPlateKeys()
    ensures PlateKey(DefaultCars[0].plate) == "IT20BOM"
    ensures PlateKey(DefaultCars[1].plate) == "MH12AB1234"
    ensures PlateKey(DefaultCars[2].plate) == "DL10XY9876"
  {
    DefaultKey0();
    DefaultKey1();
    DefaultKey2();
  }

  /** The default rows have pairwise different plate keys. */
  lemma DefaultPlatesDistinct()
    ensures PlateKey(DefaultCars[0].plate) != PlateKey(DefaultCars[1].plate)
    ensures PlateKey(DefaultCars[0].plate) != PlateKey(DefaultCars[2].plate)
    ensures PlateKey(DefaultCars[1].plate) != PlateKey(DefaultCars[2].plate)
  {
    DefaultKey0();
    DefaultKey1();
    DefaultKey2();
  }

  /** A lower-case query spaced differently from the row finds the old, unserviced default car and
      shows both advisories, the warning first. */
  lemma DefaultLookupOldCar()
    ensures FindCarDetails(DefaultCars, "mh12ab 1234") == Details(DefaultCars[1])
    ensures SplitLines(FindCarDetails(DefaultCars, "mh12ab 1234"))
              == [Summary(DefaultCars[1]), OldCarLine, ServiceLine]
  {
    DefaultPlateKeys();
    QueryKey1();
    assert IsFirstMatch(DefaultCars, "MH12AB1234", 1);
    AdvisoryRules(DefaultCars[1]);
  }

  /** A lower-case query finds the young, serviced default car with no advisory. */
  lemma DefaultLookupYoungCar()
    ensures FindCarDetails(DefaultCars, "it20 bom") == Summary(DefaultCars[0])
  {
    DefaultPlateKeys();
    QueryKey0();
    assert IsFirstMatch(DefaultCars, "IT20BOM", 0);
  }

  // Keys of the default plates and of sample queries, worked out step by step.

  lemma DefaultKey0()
    ensures PlateKey("IT20 BOM") == "IT20BOM"
  {
    assert "IT20 BOM" == "IT20" + " " + "BOM";
    PlateKeyOfTwoWords("IT20", "BOM");
    assert "IT20" + "BOM" == "IT20BOM";
    assert Ascii.Upper("IT20BOM") == "IT20BOM";
  }

  lemma DefaultKey1()
    ensures PlateKey("MH12 AB1234") == "MH12AB1234"
  {
    assert "MH12 AB1234" == "MH12" + " " + "AB1234";
    PlateKeyOfTwoWords("MH12", "AB1234");
    assert "MH12" + "AB1234" == "MH12AB1234";
    assert Ascii.Upper("MH12AB1234") == "MH12AB1234";
  }

  lemma DefaultKey2()
    ensures PlateKey("DL10 XY9876") == "DL10XY9876"
  {
    assert "DL10 XY9876" == "DL10" + " " + "XY9876";
    PlateKeyOfTwoWords("DL10", "XY9876");
    assert "DL10" + "XY9876" == "DL10XY9876";
    assert Ascii.Upper("DL10XY9876") == "DL10XY9876";
  }

  lemma QueryKey0()
    ensures PlateKey("it20 bom") == "IT20BOM"
  {
    assert "it20 bom" == "it20" + " " + "bom";
    PlateKeyOfTwoWords("it20", "bom");
    assert "it20" + "bom" == "it20bom";
    assert Ascii.Upper("it20bom") == "IT20BOM";
  }

  lemma QueryKey1()
    ensures PlateKey("mh12ab 1234") == "MH12AB1234"
  {
    assert "mh12ab 1234" == "mh12ab" + " " + "1234";
    PlateKeyOfTwoWords("mh12ab", "1234");
    assert "mh12ab" + "1234" == "mh12ab1234";
    assert Ascii.Upper("mh12ab1234") == "MH12AB1234";
  }
}
