/**
 * How the two passes over a file relate. The build fills `elementImportMap` from the
 * analysis reports; given any such map, the rewrite wraps exactly the reported elements that
 * have a non-empty module id in it, in the order they were reported.
 */
module IslandPasses {
  import opened Ast
  import opened TransformIslandElements
  import opened AnalyzeIslandElements

  /** The reports whose element has a non-empty module id, paired with that id. */
  function MappedReports(reports: seq<Report>, elementImportMap: map<string, string>): seq<(string, string)> {
    if |reports| == 0 then []
    else
      var element := reports[0].element;
      (if element in elementImportMap && elementImportMap[element] != "" then [(element, elementImportMap[element])] else []) +
      MappedReports(reports[1..], elementImportMap)
  }

  lemma {:induction false} MappedReportsAppend(first: seq<Report>, second: seq<Report>, elementImportMap: map<string, string>)
    ensures MappedReports(first + second, elementImportMap) ==
              MappedReports(first, elementImportMap) + MappedReports(second, elementImportMap)
  {
    if |first| == 0 {
      assert first + second == second;
    } else {
      assert (first + second)[1..] == first[1..] + second;
      MappedReportsAppend(first[1..], second, elementImportMap);
    }
  }

  lemma {:induction false} EligibleIslandsAreMappedReports(opts: TransformOptions, ds: seq<Node>)
    requires IslandRootsKnown(ds)
    ensures EligibleIslands(opts, ds) == MappedReports(ReportsFor(opts.checker, opts.id, ds), opts.elementImportMap)
  {
    if |ds| > 0 {
      var d := ds[0];
      assert d in ds;
      EligibleIslandsAreMappedReports(opts, ds[1..]);
      MappedReportsAppend(OwnReports(opts.checker, opts.id, d), ReportsFor(opts.checker, opts.id, ds[1..]), opts.elementImportMap);
      var own := OwnReports(opts.checker, opts.id, d);
      if |own| > 0 {
        assert own[1..] == [];
      }
    }
  }

  /**
   * When the rewrite of a file does not throw, it emits one record per reported island whose
   * dotted name has a non-empty module id, with that id, in report order; no other element is
   * wrapped.
   */
  lemma TransformFollowsAnalysis(opts: TransformOptions, n: Node)
    requires IslandRootsKnown(Descendants(n))
    ensures MakeTransformIslandElements(opts, n).Ok? ==>
              Summary(MakeTransformIslandElements(opts, n).value.1) ==
              MappedReports(AnalyzeNode(opts.checker, opts.id, n), opts.elementImportMap)
  {
    AnalyzeNodeFlat(opts.checker, opts.id, n);
    EligibleIslandsAreMappedReports(opts, Descendants(n));
  }
}
