/** The result lines of a migration: which there are, what each says and in what order. */
module MigrateResults {
  import opened Inspect
  import opened Ordering
  import opened Store
  import opened Migrate

  /** The line is due: its cluster cannot be listed, its file cannot be read, or its file lacked
      totals; then it tells how many, and whether the rewrite went well. */
  ghost predicate Due(f: Faults, dirs: map<string, Dir>, r: MigrateResult) {
    && r.cluster in dirs
    && if r.NotListed? then r.cluster in f.unlisted
       else
         && r.cluster !in f.unlisted && r.file in dirs[r.cluster]
         && IsReport(r.file, dirs[r.cluster][r.file]) && LineFor(f, r, dirs[r.cluster][r.file])
  }

  ghost predicate LineFor(f: Faults, r: MigrateResult, e: Entry) {
    match r
    case NotListed(_) => false
    case Unreadable(_, _) => !e.File?
    case Migrated(c, n, changed, ok) =>
      && e.File? && changed == |LackPlaces(e.data.findings)| && changed > 0
      && (ok <==> f.writes(c, n) == NoFault)
  }

  /** Clusters come in ascending order, the files of one newest first. */
  predicate Before(x: MigrateResult, y: MigrateResult) {
    || Less(x.cluster, y.cluster)
    || (x.cluster == y.cluster && !x.NotListed? && !y.NotListed? && Less(y.file, x.file))
  }

  predicate InOrder(rs: seq<MigrateResult>) {
    forall i, j :: 0 <= i < j < |rs| ==> Before(rs[i], rs[j])
  }

  lemma LineMeans(f: Faults, c: string, n: string, e: Entry, r: MigrateResult)
    ensures |ResultFor(f, c, n, e)| <= 1
    ensures r in ResultFor(f, c, n, e) <==> !r.NotListed? && r.cluster == c && r.file == n && LineFor(f, r, e)
  {
    hide ChangedCount, LackPlaces;
    if e.File? { ChangedCountMeans(e.data.findings); }
  }

  predicate LineOfDir(f: Faults, c: string, d: Dir, names: seq<string>, r: MigrateResult) {
    !r.NotListed? && r.cluster == c && r.file in names && r.file in d && r in ResultFor(f, c, r.file, d[r.file])
  }

  lemma AppendInOrder(a: seq<MigrateResult>, b: seq<MigrateResult>)
    requires InOrder(a) && InOrder(b) && forall x, y :: x in a && y in b ==> Before(x, y)
    ensures InOrder(a + b)
  {
    assert forall i :: 0 <= i < |a| ==> a[i] in a;
    assert forall i :: 0 <= i < |b| ==> b[i] in b;
  }

  lemma {:induction false} DirLines(f: Faults, c: string, d: Dir, names: seq<string>)
    requires Descending(names) && forall n <- names :: n in d
    ensures forall r :: r in ResultsFor(f, c, d, names) <==> LineOfDir(f, c, d, names, r)
    ensures InOrder(ResultsFor(f, c, d, names))
  {
    hide ResultFor, Less, LineFor;
    if names != [] {
      var k := |names| - 1;
      var front, n := names[..k], names[k];
      assert names == front + [n];
      DirLines(f, c, d, front);
      forall r ensures r in ResultFor(f, c, n, d[n]) ==> r.cluster == c && !r.NotListed? && r.file == n {
        LineMeans(f, c, n, d[n], r);
      }
      LineMeans(f, c, n, d[n], NotListed(c));
      var before, last := ResultsFor(f, c, d, front), ResultFor(f, c, n, d[n]);
      forall x, y | x in before && y in last ensures Before(x, y) {
        var j :| 0 <= j < k && front[j] == x.file;
        assert Less(names[k], names[j]);
      }
      AppendInOrder(before, last);
    }
  }

  lemma OneCluster(f: Faults, c: string, dirs: map<string, Dir>)
    requires c in dirs
    ensures forall r :: r in DirResults(f, c, dirs[c]) <==> r.cluster == c && Due(f, dirs, r)
    ensures InOrder(DirResults(f, c, dirs[c]))
  {
    hide ResultFor, LineFor, Listing, Less, ResultsFor, InOrder, IsReport, Descending;
    var d := dirs[c];
    if c in f.unlisted {
      OneLine(NotListed(c));
    } else {
      var names := Listing(ReportNames(d));
      DirLines(f, c, d, names);
      forall r: MigrateResult | !r.NotListed? && r.file in d
        ensures r in ResultFor(f, c, r.file, d[r.file]) <==> r.cluster == c && LineFor(f, r, d[r.file])
      {
        LineMeans(f, c, r.file, d[r.file], r);
      }
    }
  }

  lemma OneLine(r: MigrateResult)
    ensures InOrder([r])
  {
  }

  lemma {:induction false} AllLines(f: Faults, dirs: map<string, Dir>, clusters: seq<string>)
    requires (forall i, j :: 0 <= i < j < |clusters| ==> Less(clusters[i], clusters[j]))
    requires forall c <- clusters :: c in dirs
    ensures forall r :: r in AllResults(f, dirs, clusters) <==> r.cluster in clusters && Due(f, dirs, r)
    ensures InOrder(AllResults(f, dirs, clusters))
  {
    hide Due, InOrder, DirResults, Less;
    if clusters == [] {
      NoLines();
    } else {
      var k := |clusters| - 1;
      var front, c := clusters[..k], clusters[k];
      assert clusters == front + [c];
      AllLines(f, dirs, front);
      OneCluster(f, c, dirs);
      forall x, y | x in AllResults(f, dirs, front) && y in DirResults(f, c, dirs[c]) ensures Before(x, y) {
        var j :| 0 <= j < k && front[j] == x.cluster;
        assert Less(clusters[j], clusters[k]);
      }
      AppendInOrder(AllResults(f, dirs, front), DirResults(f, c, dirs[c]));
    }
  }

  lemma NoLines()
    ensures InOrder([])
  {
  }

  /** Main result: the migration of a store returns exactly the lines that are due, each once,
      clusters in ascending order and the files of each newest first. */
  lemma ResultsAreThoseDue(f: Faults, dirs: map<string, Dir>)
    ensures var rs := AllResults(f, dirs, Reversed(Listing(dirs.Keys)));
      InOrder(rs) && forall r :: r in rs <==> Due(f, dirs, r)
  {
    hide Due, InOrder, AllResults, Less, Listing;
    var up, down := Reversed(Listing(dirs.Keys)), Listing(dirs.Keys);
    forall c ensures c in up <==> c in dirs {
      if c in down {
        var k :| 0 <= k < |down| && down[k] == c;
        assert up[|down| - 1 - k] == c;
      }
      if c in up {
        var k :| 0 <= k < |up| && up[k] == c;
        assert down[|down| - 1 - k] == c;
      }
    }
    AllLines(f, dirs, up);
    forall r | Due(f, dirs, r) ensures r.cluster in up { DueIsThere(f, dirs, r); }
  }

  lemma DueIsThere(f: Faults, dirs: map<string, Dir>, r: MigrateResult)
    requires Due(f, dirs, r)
    ensures r.cluster in dirs
  {
  }
}
