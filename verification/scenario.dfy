/**
 The end-to-end scenario of two villas, carried from the cleaned records to
 the bars of the size and price charts (dashboard.js, lines 133-183).
 */
module Scenario {
  import opened Numbers
  import opened Options
  import opened Normalize
  import opened Aggregate

  /** The two cleaned villas of the end-to-end scenario: "1,000" sqft,
      plot "2,000-4,000", "1.2M"; and "2,000" sqft, no plot, "1.8M". */
  predicate Villas(a: CleanRecord, b: CleanRecord) {
    && TypeOf(a) == "Villa" && TypeOf(b) == "Villa"
    && a.bua == Val(1000.0) && a.plot == Val(3000.0) && a.price == Val(1.2)
    && b.bua == Val(2000.0) && b.plot == Absent && b.price == Val(1.8)
  }

  /** Both villas pass the BUA guard and the price guard: one bar each. */
  lemma VillaGroups(a: CleanRecord, b: CleanRecord, gate: NumField)
    requires Villas(a, b) && (gate == Bua || gate == Price)
    ensures Grouped([a, b], gate) == ["Villa"]
  {
    assert [a, b][..1] == [a];
    assert [a][..0] == [];
    assert GateTypes([a], gate) == ["Villa"];
    assert GateTypes([a, b], gate) == ["Villa"] + ["Villa"];
    DedupSnoc(["Villa"], "Villa");
    DedupSnoc([], "Villa");
    assert [] + ["Villa"] == ["Villa"];
  }

  /** The plot tally counts the first villa only, since the second has no plot. */
  lemma VillaTallies(a: CleanRecord, b: CleanRecord)
    requires Villas(a, b)
    ensures TallyOf([a, b], "Villa", Bua, Bua) == Tally(3000.0, 2)
    ensures TallyOf([a, b], "Villa", Bua, Plot) == Tally(3000.0, 1)
    ensures TallyOf([a, b], "Villa", Price, Price) == Tally(3.0, 2)
  {
    assert [a, b][..1] == [a];
    assert [a][..0] == [];
    assert TallyOf([a], "Villa", Bua, Bua) == Tally(1000.0, 1);
    assert TallyOf([a], "Villa", Bua, Plot) == Tally(3000.0, 1);
    assert TallyOf([a], "Villa", Price, Price) == Tally(1.2, 1);
  }

  /** The size bar shows 1500 and 3000, the price bar 1.5. */
  lemma VillaScenario(a: CleanRecord, b: CleanRecord)
    requires Villas(a, b)
    ensures Grouped([a, b], Bua) == ["Villa"] && Grouped([a, b], Price) == ["Villa"]
    ensures TallyOf([a, b], "Villa", Bua, Bua).count > 0 && TallyOf([a, b], "Villa", Price, Price).count > 0
    ensures SizeRowOf("Villa", TallyOf([a, b], "Villa", Bua, Bua), TallyOf([a, b], "Villa", Bua, Plot)) == SizeRow("Villa", 1500, 3000)
    ensures PriceRowOf("Villa", TallyOf([a, b], "Villa", Price, Price)) == PriceRow("Villa", 1.5)
  {
    VillaGroups(a, b, Bua);
    VillaGroups(a, b, Price);
    VillaTallies(a, b);
    VillaSize();
    VillaPrice();
  }

  lemma VillaSize()
    ensures SizeRowOf("Villa", Tally(3000.0, 2), Tally(3000.0, 1)) == SizeRow("Villa", 1500, 3000)
  {
    assert 3000.0 / 2 as real == 1500.0;
    assert 3000.0 / 1 as real == 3000.0;
    RoundUnique(1500.0, 1500);
    RoundUnique(3000.0, 3000);
  }

  lemma VillaPrice()
    ensures PriceRowOf("Villa", Tally(3.0, 2)) == PriceRow("Villa", 1.5)
  {
    assert 3.0 / 2 as real * 10.0 == 15.0;
    RoundUnique(15.0, 15);
  }
}
