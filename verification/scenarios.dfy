/** Small worked inputs: a file with a line lacking ';', split and folded. */
module Scenarios {
  import opened Wrappers
  import opened Lines
  import opened Summary
  import opened Fold

  /** "A;10.0\nNODELIM\nA;5.0\n" splits into its three lines. */
  lemma MalformedFileLines()
    ensures SplitLines("A;10.0\nNODELIM\nA;5.0\n") == ["A;10.0", "NODELIM", "A;5.0"]
  {
    UnsplitThenSplit(["A;10.0", "NODELIM", "A;5.0"]);
    assert Unsplit(["A;5.0"]) == "A;5.0\n";
    assert Unsplit(["NODELIM", "A;5.0"]) == "NODELIM\nA;5.0\n";
    assert Unsplit(["A;10.0", "NODELIM", "A;5.0"]) == "A;10.0\nNODELIM\nA;5.0\n";
  }

  /** Folding those lines (temperatures in tenths): the middle line is skipped
      and A has two readings, 10.0 and 5.0. */
  lemma MalformedLineSkipped(parse: string -> Option<int>)
    requires parse("10.0") == Some(100) && parse("5.0") == Some(50)
    ensures FoldLines(["A;10.0", "NODELIM", "A;5.0"], parse) == Some(map["A" := Stats("A", 2, 150, 50, 100)])
  {
    var l1, l2, l3 := "A;10.0", "NODELIM", "A;5.0";
    SplitRecordUnique("A", "10.0");
    SplitRecordUnique("A", "5.0");
    assert l1 == "A" + ";" + "10.0";
    assert l3 == "A" + ";" + "5.0";
    assert ';' !in l2;
    var first := map["A" := Stats("A", 1, 100, 100, 100)];
    assert FoldLines([l1], parse) == Some(first) by {
      assert [l1][..0] == [];
    }
    assert FoldLines([l1, l2], parse) == Some(first) by {
      assert [l1, l2][..1] == [l1];
    }
    assert [l1, l2, l3][..2] == [l1, l2];
    assert ParseLine(l3, parse) == Record("A", 50);
    assert ApplyLine(first, l3, parse) == Some(Observe(first, "A", 50));
    assert Observe(first, "A", 50) == map["A" := Stats("A", 2, 150, 50, 100)];
  }
}
