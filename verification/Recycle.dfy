/** Choosing the recycle bin that owns a path and deciding whether it may be cleared. */
module Recycle {
  import opened Text
  import opened Paths

  datatype Bin = Bin(id: int, path: string)

  /** The storage backend's configured user prefixes; empty means not configured. */
  datatype Backend = Backend(publicUserPrefix: string, privateUserPrefix: string)

  datatype Outcome =
    | PathRequired | ListFailed | NoBin | NoPrefixConfigured | Refused
    | DryRun(id: int, apiPath: string)
    | Post(id: int, apiPath: string)

  // ---- picking the bin ----

  predicate Matches(bins: seq<Bin>, q: string, i: int) {
    0 <= i < |bins| && PathHasPrefix(q, Normalize(bins[i].path))
  }

  function Length(bins: seq<Bin>, i: int): nat
    requires 0 <= i < |bins|
  {
    |Normalize(bins[i].path)|
  }

  /** The first bin of greatest normalized length among those that match. */
  ghost predicate Best(bins: seq<Bin>, q: string, i: int) {
    && Matches(bins, q, i)
    && forall j :: Matches(bins, q, j) ==>
         && Length(bins, j) <= Length(bins, i)
         && (j < i ==> Length(bins, j) < Length(bins, i))
  }

  /** The best bin among the first `n`, as the loop finds it. */
  function PickUpTo(bins: seq<Bin>, q: string, n: nat): (r: Option<nat>)
    requires n <= |bins|
    ensures r.Some? ==> r.value < n
  {
    if n == 0 then None
    else
      var best := PickUpTo(bins, q, n - 1);
      if !Matches(bins, q, n - 1) then best
      else if best.None? || Length(bins, n - 1) > Length(bins, best.value) then Some(n - 1)
      else best
  }

  lemma {:induction false} PickUpToIsBest(bins: seq<Bin>, q: string, n: nat)
    requires n <= |bins|
    ensures var r := PickUpTo(bins, q, n);
      if r.None? then forall j :: 0 <= j < n ==> !Matches(bins, q, j)
      else Best(bins[..n], q, r.value)
  {
    hide PathHasPrefix, Normalize;
    if n > 0 {
      PickUpToIsBest(bins, q, n - 1);
      var before, r := PickUpTo(bins, q, n - 1), PickUpTo(bins, q, n);
      assert forall j :: 0 <= j < n - 1 ==> bins[..n - 1][j] == bins[..n][j] == bins[j];
      if r.Some? {
        forall j | 0 <= j < n - 1 ensures Matches(bins[..n], q, j) <==> Matches(bins, q, j) {
          assert bins[..n][j] == bins[j];
        }
        forall j | Matches(bins[..n], q, j)
          ensures Length(bins[..n], j) <= Length(bins[..n], r.value)
          ensures j < r.value ==> Length(bins[..n], j) < Length(bins[..n], r.value)
        {
          if j < n - 1 { assert Matches(bins[..n - 1], q, j); }
        }
      }
    }
  }

  function Pick(bins: seq<Bin>, q: string): (r: Option<nat>)
    ensures r.Some? ==> r.value < |bins| && Best(bins, q, r.value)
    ensures r.None? <==> forall j :: !Matches(bins, q, j)
  {
    PickUpToIsBest(bins, q, |bins|);
    assert bins[..|bins|] == bins;
    PickUpTo(bins, q, |bins|)
  }

  method PickRecycleForPath(recycles: seq<Bin>, queryPath: string) returns (best: Option<Bin>)
    ensures var r := Pick(recycles, Normalize(queryPath));
      best == if r.None? then None else Some(recycles[r.value])
  {
    hide PathHasPrefix, Normalize;
    var q := Normalize(queryPath);
    best := None;
    var bestLen: int := -1;
    for i := 0 to |recycles|
      invariant var r := PickUpTo(recycles, q, i);
        if r.None? then best == None && bestLen == -1
        else best == Some(recycles[r.value]) && bestLen == Length(recycles, r.value)
    {
      var rp := Normalize(recycles[i].path);
      if !PathHasPrefix(q, rp) { continue; }
      if |rp| > bestLen {
        best := Some(recycles[i]);
        bestLen := |rp|;
      }
    }
  }

  // ---- the guard and the decision ----

  /** `checkUserDirPath`. */
  function CheckUserDirPath(y: Backend, cleaned: string): (err: Option<Outcome>)
    ensures err.Some? ==> err.value == NoPrefixConfigured || err.value == Refused
  {
    var pub := Normalize(y.publicUserPrefix);
    var priv := Normalize(y.privateUserPrefix);
    var hasPub := y.publicUserPrefix != "";
    var hasPriv := y.privateUserPrefix != "";
    if !hasPub && !hasPriv then Some(NoPrefixConfigured)
    else if hasPriv && PathStrictlyUnder(cleaned, priv) then None
    else if hasPub && PathStrictlyUnder(cleaned, pub) then None
    else Some(Refused)
  }

  function ApiPath(queryPath: string): string {
    if HasSuffix(queryPath, "/") then queryPath else queryPath + "/"
  }

  /** `ClearRecycleFiles` up to the request it sends; `recycles` is None when listing failed. */
  function ClearDecision(y: Backend, recycles: Option<seq<Bin>>, queryPath: string, dryRun: bool): Outcome {
    if TrimSpace(queryPath) == "" then PathRequired
    else if recycles.None? then ListFailed
    else
      var cleaned := Normalize(queryPath);
      var bins := recycles.value;
      var m := Pick(bins, Normalize(cleaned));
      if m.None? then NoBin
      else if !dryRun && CheckUserDirPath(y, cleaned).Some? then CheckUserDirPath(y, cleaned).value
      else if dryRun then DryRun(bins[m.value].id, ApiPath(queryPath))
      else Post(bins[m.value].id, ApiPath(queryPath))
  }

  method ClearRecycleFiles(y: Backend, recycles: Option<seq<Bin>>, queryPath: string, dryRun: bool) returns (r: Outcome)
    ensures r == ClearDecision(y, recycles, queryPath, dryRun)
  {
    hide Pick, Normalize, TrimSpace, PathStrictlyUnder;
    if TrimSpace(queryPath) == "" { return PathRequired; }
    var cleaned := Normalize(queryPath);
    if recycles.None? { return ListFailed; }
    var match_ := PickRecycleForPath(recycles.value, cleaned);
    if match_.None? { return NoBin; }
    if !dryRun {
      var err := CheckUserDirPath(y, cleaned);
      if err.Some? { return err.value; }
    }
    var apiPath := queryPath;
    if !HasSuffix(apiPath, "/") { apiPath := apiPath + "/"; }
    if dryRun { return DryRun(match_.value.id, apiPath); }
    return Post(match_.value.id, apiPath);
  }

  // ---- deepest covering bin ----

  predicate StableBins(bins: seq<Bin>) {
    forall i :: 0 <= i < |bins| ==> Stable(bins[i].path)
  }

  /** The bin's path is an ancestor of, or equal to, the query. */
  predicate Covers(bins: seq<Bin>, q: seq<string>, i: int) {
    0 <= i < |bins| && Comps(bins[i].path) <= q
  }

  function Depth(bins: seq<Bin>, i: int): nat
    requires 0 <= i < |bins|
  {
    |Comps(bins[i].path)|
  }

  lemma StableComps(p: string)
    requires Stable(p)
    ensures Comps(Normalize(p)) == Comps(p)
  {
    hide Comps, Normalize;
    IdempotentIff(p);
    NormalizeEqual(Normalize(p), p);
  }

  lemma MatchesIsCovers(bins: seq<Bin>, query: string, i: int)
    requires StableBins(bins) && Stable(query)
    ensures Matches(bins, Normalize(query), i) <==> Covers(bins, Comps(query), i)
  {
    hide Comps, Normalize, PathHasPrefix;
    if 0 <= i < |bins| {
      PrefixIsComponentPrefix(Normalize(query), Normalize(bins[i].path));
      StableComps(query);
      StableComps(bins[i].path);
    }
  }

  lemma {:induction false} JoinLonger(a: seq<string>, b: seq<string>)
    requires b != []
    ensures |Join(a + b, '/')| >= |Join(a, '/')|
    ensures a != [] ==> |Join(a + b, '/')| > |Join(a, '/')|
    decreases |a|
  {
    if |a| == 0 {
      assert a + b == b;
    } else if |a| == 1 {
      assert (a + b)[1..] == b && (a + b)[0] == a[0];
    } else {
      assert (a + b)[1..] == a[1..] + b;
      JoinLonger(a[1..], b);
    }
  }

  /** Of two ancestors of one path, the deeper renders longer. */
  lemma DeeperIsLonger(a: seq<string>, b: seq<string>, q: seq<string>)
    requires a <= q && b <= q && AllCanonical(q)
    ensures |a| < |b| <==> |Render(a)| < |Render(b)|
    ensures |a| == |b| ==> a == b
  {
    if |a| < |b| {
      ShorterAncestor(a, b);
      assert b == q[..|b|] && a == q[..|a|];
    } else if |b| < |a| {
      ShorterAncestor(b, a);
      assert b == q[..|b|] && a == q[..|a|];
    } else {
      assert a == q[..|a|] == b;
    }
  }

  lemma ShorterAncestor(a: seq<string>, b: seq<string>)
    requires |a| < |b|
    ensures a <= b && AllCanonical(b) ==> |Render(a)| < |Render(b)|
  {
    if a <= b && AllCanonical(b) {
      assert b == a + b[|a|..];
      JoinLonger(a, b[|a|..]);
      if a == [] { assert Canonical(b[0]); }
    }
  }

  lemma LengthIsRendered(bins: seq<Bin>, i: int)
    requires 0 <= i < |bins|
    ensures Length(bins, i) == |Render(Comps(bins[i].path))|
  {
    NormalizeIsCanonical(bins[i].path);
  }

  lemma LongerIsDeeper(bins: seq<Bin>, q: seq<string>, i: int, j: int)
    requires AllCanonical(q) && 0 <= i < |bins| && 0 <= j < |bins|
    ensures Covers(bins, q, i) && Covers(bins, q, j) ==>
      && (Length(bins, j) < Length(bins, i) <==> Depth(bins, j) < Depth(bins, i))
      && (Length(bins, j) == Length(bins, i) <==> Comps(bins[j].path) == Comps(bins[i].path))
  {
    hide Comps, Normalize, Render, Length, AllCanonical;
    LengthIsRendered(bins, i);
    LengthIsRendered(bins, j);
    if Covers(bins, q, i) && Covers(bins, q, j) {
      DeeperIsLonger(Comps(bins[i].path), Comps(bins[j].path), q);
      DeeperIsLonger(Comps(bins[j].path), Comps(bins[i].path), q);
    }
  }

  /** Main result: a bin is found exactly when one covers the path; it is the deepest such bin,
      bins of equal depth have equal normalized paths, and among those the first is taken. */
  lemma PickIsDeepest(bins: seq<Bin>, query: string)
    requires StableBins(bins) && Stable(query)
    ensures var r := Pick(bins, Normalize(query));
      && (r.Some? <==> exists i :: Covers(bins, Comps(query), i))
      && (r.Some? ==>
            && Covers(bins, Comps(query), r.value)
            && forall j :: Covers(bins, Comps(query), j) ==>
                 && Depth(bins, j) <= Depth(bins, r.value)
                 && (Depth(bins, j) == Depth(bins, r.value) ==>
                       Normalize(bins[j].path) == Normalize(bins[r.value].path) && r.value <= j))
  {
    hide Comps, Normalize, Pick, Matches, Stable, StableBins, Length, AllCanonical;
    CompsCanonical(query);
    var q := Normalize(query);
    var r := Pick(bins, q);
    forall i ensures Matches(bins, q, i) <==> Covers(bins, Comps(query), i) { MatchesIsCovers(bins, query, i); }
    if r.Some? {
      forall j | Covers(bins, Comps(query), j)
        ensures Depth(bins, j) <= Depth(bins, r.value)
        ensures Depth(bins, j) == Depth(bins, r.value) ==>
          Normalize(bins[j].path) == Normalize(bins[r.value].path) && r.value <= j
      {
        LongerIsDeeper(bins, Comps(query), r.value, j);
        LongerIsDeeper(bins, Comps(query), j, r.value);
        NormalizeEqual(bins[j].path, bins[r.value].path);
      }
    }
  }

  // ---- what a real clear posts ----

  /** A path that names, as it stands, what the checks look at: no white space at its end or at
      the end of its last part that counts, and any at its start is in a part that a ".." cancels. */
  predicate Tidy(p: string) {
    TrimSpace(p) != "" && !EndsBlank(p) && Stable(p) && (StartsBlank(p) ==> FirstCancelled(p))
  }

  /** Components strictly under a configured user prefix. */
  predicate UnderConfigured(y: Backend, q: seq<string>) {
    || (y.privateUserPrefix != "" && Comps(y.privateUserPrefix) < q)
    || (y.publicUserPrefix != "" && Comps(y.publicUserPrefix) < q)
  }

  lemma GuardIsComponents(y: Backend, p: string)
    requires Stable(p) && Stable(y.publicUserPrefix) && Stable(y.privateUserPrefix)
    ensures var err := CheckUserDirPath(y, Normalize(p));
      && (err.None? <==> UnderConfigured(y, Comps(p)))
      && (err == Some(NoPrefixConfigured) <==> y.publicUserPrefix == "" && y.privateUserPrefix == "")
  {
    hide Comps, Normalize, PathStrictlyUnder, Stable;
    PrefixIsComponentPrefix(Normalize(p), Normalize(y.publicUserPrefix));
    PrefixIsComponentPrefix(Normalize(p), Normalize(y.privateUserPrefix));
    StableComps(p);
    StableComps(y.publicUserPrefix);
    StableComps(y.privateUserPrefix);
  }

  lemma ApiPathVerbatim(p: string)
    ensures Verbatim(ApiPath(p)) == Verbatim(p)
  {
    hide Verbatim;
    VerbatimSlash(p);
  }

  lemma NamedPath(y: Backend, recycles: Option<seq<Bin>>, p: string, dryRun: bool)
    ensures var r := ClearDecision(y, recycles, p, dryRun);
      r.Post? || r.DryRun? ==> TrimSpace(p) != "" && r.apiPath == ApiPath(p)
  {
    hide Normalize, TrimSpace, CheckUserDirPath, PathStrictlyUnder, PathHasPrefix, Pick, Matches, Best, Length, ApiPath;
  }

  /** The text a clear posts, read as it stands, names the path its checks looked at if and only
      if the caller's path is tidy: for every input that reaches the request or its preview. */
  lemma PostedIsCheckedIff(y: Backend, recycles: Option<seq<Bin>>, p: string, dryRun: bool)
    ensures var r := ClearDecision(y, recycles, p, dryRun);
      r.Post? || r.DryRun? ==> (Verbatim(r.apiPath) == Comps(Normalize(p)) <==> Tidy(p))
  {
    hide *;
    NamedPath(y, recycles, p, dryRun);
    ApiPathVerbatim(p);
    if TrimSpace(p) != "" {
      VerbatimIsCheckedIff(p);
      TidyMeans(p);
    }
  }

  lemma TidyMeans(p: string)
    requires TrimSpace(p) != ""
    ensures Tidy(p) <==> !EndsBlank(p) && Stable(p) && (StartsBlank(p) ==> FirstCancelled(p))
  {
  }

  /** Normalizing a stable path gives a stable path, so the query the picker sees is the path
      the caller meant. */
  lemma TwiceIsOnce(p: string)
    requires Stable(p)
    ensures Normalize(Normalize(p)) == Normalize(p)
  {
    IdempotentIff(p);
  }

  lemma ClearUnfolds(y: Backend, bins: seq<Bin>, p: string, dryRun: bool)
    requires TrimSpace(p) != "" && Stable(p)
    ensures var r := ClearDecision(y, Some(bins), p, dryRun);
      var m := Pick(bins, Normalize(p));
      var err := CheckUserDirPath(y, Normalize(p));
      && (r.NoBin? <==> m.None?)
      && (r.DryRun? <==> dryRun && m.Some?)
      && (r.Post? <==> !dryRun && m.Some? && err.None?)
      && (r.NoPrefixConfigured? || r.Refused? <==> !dryRun && m.Some? && err.Some?)
      && (r.NoPrefixConfigured? || r.Refused? ==> r == err.value)
      && (r.Post? || r.DryRun? ==> r.id == bins[m.value].id && r.apiPath == ApiPath(p))
  {
    hide Comps, Normalize, Pick, Stable, TrimSpace, PathStrictlyUnder, Matches, Best, Length;
    TwiceIsOnce(p);
  }

  /** The bin with that number is the first of the deepest ones that cover the components. */
  ghost predicate OwnedBy(bins: seq<Bin>, q: seq<string>, id: int) {
    exists i :: Deepest(bins, q, i) && (forall j :: Deepest(bins, q, j) ==> i <= j) && bins[i].id == id
  }

  ghost predicate Deepest(bins: seq<Bin>, q: seq<string>, i: int) {
    Covers(bins, q, i) && forall j :: Covers(bins, q, j) ==> Depth(bins, j) <= Depth(bins, i)
  }

  ghost predicate Covered(bins: seq<Bin>, q: seq<string>) {
    exists i :: Covers(bins, q, i)
  }

  lemma PickedOwns(bins: seq<Bin>, p: string)
    requires Stable(p) && StableBins(bins)
    ensures var m := Pick(bins, Normalize(p));
      && (m.Some? <==> Covered(bins, Comps(p)))
      && (m.Some? ==> OwnedBy(bins, Comps(p), bins[m.value].id))
  {
    hide Comps, Normalize, Pick, Stable, StableBins, Covers, Depth;
    PickIsDeepest(bins, p);
    var m := Pick(bins, Normalize(p));
    if m.Some? { assert Deepest(bins, Comps(p), m.value); }
  }

  /** What needs no condition: a preview never deletes and a real clear is never only previewed,
      the guard speaks for real clears only, and what stops either before a bin is looked for. */
  lemma PreviewNeverDeletes(y: Backend, recycles: Option<seq<Bin>>, p: string, dryRun: bool)
    ensures var r := ClearDecision(y, recycles, p, dryRun);
      && (r.PathRequired? <==> TrimSpace(p) == "")
      && (r.ListFailed? <==> TrimSpace(p) != "" && recycles.None?)
      && (r.Post? ==> !dryRun)
      && (r.DryRun? ==> dryRun)
      && (r.NoPrefixConfigured? || r.Refused? ==> !dryRun)
  {
    hide Normalize, Pick, TrimSpace, PathStrictlyUnder, ApiPath, CheckUserDirPath, Matches, Best, Length;
  }

  /** A preview is given exactly when a bin covers the path, whatever the prefixes are, and it
      names the first of the deepest such bins and the path with a slash behind. */
  lemma PreviewIff(y: Backend, bins: seq<Bin>, p: string)
    requires TrimSpace(p) != "" && Stable(p) && StableBins(bins)
    ensures var r := ClearDecision(y, Some(bins), p, true);
      && (r.DryRun? <==> Covered(bins, Comps(p)))
      && (r.NoBin? <==> !Covered(bins, Comps(p)))
      && (r.DryRun? ==> OwnedBy(bins, Comps(p), r.id) && (r.apiPath == p || r.apiPath == p + "/")
                        && HasSuffix(r.apiPath, "/"))
  {
    hide Comps, Normalize, Pick, Stable, StableBins, TrimSpace, ClearDecision, CheckUserDirPath, Covered, OwnedBy;
    ClearUnfolds(y, bins, p, true);
    PickedOwns(bins, p);
  }

  /** What a real clear comes to, and which bin and text it names. */
  lemma ClearIff(y: Backend, bins: seq<Bin>, p: string)
    requires TrimSpace(p) != "" && Stable(p) && StableBins(bins)
    requires Stable(y.publicUserPrefix) && Stable(y.privateUserPrefix)
    ensures var r := ClearDecision(y, Some(bins), p, false);
      var covered, configured := Covered(bins, Comps(p)), y.publicUserPrefix != "" || y.privateUserPrefix != "";
      && (r.NoBin? <==> !covered)
      && (r.NoPrefixConfigured? <==> covered && !configured)
      && (r.Refused? <==> covered && configured && !UnderConfigured(y, Comps(p)))
      && (r.Post? <==> covered && UnderConfigured(y, Comps(p)))
      && (r.Post? ==> OwnedBy(bins, Comps(p), r.id) && r.apiPath == ApiPath(p))
  {
    hide Comps, Normalize, Pick, Stable, StableBins, TrimSpace, ClearDecision, CheckUserDirPath, Covered,
      OwnedBy, ApiPath;
    ClearUnfolds(y, bins, p, false);
    PickedOwns(bins, p);
    GuardIsComponents(y, p);
  }

  /** Main result: a real clear is posted exactly when a bin covers the path and the path lies
      strictly under a configured user prefix; and the text it posts, read as it stands, then
      names that path, under the deepest covering bin and strictly under that prefix. */
  lemma ClearIsSafe(y: Backend, bins: seq<Bin>, p: string)
    requires Tidy(p) && StableBins(bins) && Stable(y.publicUserPrefix) && Stable(y.privateUserPrefix)
    ensures var r := ClearDecision(y, Some(bins), p, false);
      && (r.Post? <==> Covered(bins, Comps(p)) && UnderConfigured(y, Comps(p)))
      && (r.Post? ==>
            var named := Verbatim(r.apiPath);
            named == Comps(p) && UnderConfigured(y, named) && OwnedBy(bins, named, r.id))
  {
    hide Comps, Normalize, Pick, Stable, StableBins, TrimSpace, EndsBlank, StartsBlank, FirstCancelled, Verbatim,
      ClearDecision, ApiPath, UnderConfigured, Covered, OwnedBy;
    ClearIff(y, bins, p);
    ApiPathVerbatim(p);
    VerbatimIsCheckedIff(p);
    StableComps(p);
  }

  /** Without the tidiness condition the guarantee fails. A trailing blank is trimmed for the
      check but becomes part of the last component that is posted. */
  lemma TrailingBlankEscapesTheBin()
    ensures var bins := [Bin(7, "/a/b")];
      var r := ClearDecision(Backend("/a", ""), Some(bins), "/a/b ", false);
      r == Post(7, "/a/b /") && Verbatim(r.apiPath) == ["a", "b "] && !Covers(bins, Verbatim(r.apiPath), 0)
  {
    hide Comps, Verbatim, ClearDecision;
    ExampleComps();
    ExamplePosts("/a/b ");
    assert |["a", "b"][1]| != |["a", "b "][1]|;
  }

  /** So does a leading one: the posted text starts with a component of its own. */
  lemma LeadingBlankEscapesTheBin()
    ensures var bins := [Bin(7, "/a/b")];
      var r := ClearDecision(Backend("/a", ""), Some(bins), " /a/b", false);
      r == Post(7, " /a/b/") && Verbatim(r.apiPath) == [" ", "a", "b"] && !Covers(bins, Verbatim(r.apiPath), 0)
  {
    hide Comps, Verbatim, ClearDecision;
    ExampleComps();
    ExamplePosts(" /a/b");
    assert ["a", "b"][0][0] != [" ", "a", "b"][0][0];
  }

  lemma ExamplePosts(p: string)
    requires Comps(p) == ["a", "b"] && TrimSpace(p) != ""
    ensures ClearDecision(Backend("/a", ""), Some([Bin(7, "/a/b")]), p, false) == Post(7, ApiPath(p))
  {
    hide *;
    var y, bins := Backend("/a", ""), [Bin(7, "/a/b")];
    ExampleComps();
    StableAt(p, "b");
    StableAt("/a/b", "b");
    StableAt("/a", "a");
    StableRoot("");
    OneBin(bins[0], Comps(p));
    ExamplePrefix(y, p);
    ClearIff(y, bins, p);
  }

  lemma StableAt(p: string, last: string)
    requires Comps(p) != [] && Comps(p)[|Comps(p)| - 1] == last && (last == "a" || last == "b")
    ensures Stable(p)
  {
    hide Comps, Stable;
    StableIsComps(p);
  }

  lemma OneBin(b: Bin, q: seq<string>)
    ensures Stable(b.path) ==> StableBins([b])
    ensures Comps(b.path) <= q ==> Covered([b], q) && forall id :: OwnedBy([b], q, id) ==> id == b.id
  {
    hide Comps, Stable;
    if Comps(b.path) <= q { assert Covers([b], q, 0); }
  }

  lemma ExamplePrefix(y: Backend, p: string)
    requires y == Backend("/a", "") && Comps("/a") == ["a"] && Comps(p) == ["a", "b"]
    ensures UnderConfigured(y, Comps(p))
  {
    hide Comps;
    assert ["a"] < ["a", "b"];
  }

  lemma StableRoot(p: string)
    requires p == ""
    ensures Stable(p)
  {
    hide LastKept;
    TrimOfTrimmed("");
    assert Split("", '/') == [""];
    assert LastKept([""], 0) == -1 by { LastKeptIsTop([""], 0); WalkOne([], ""); }
  }

  lemma TrimExamples()
    ensures TrimSpace("/a/b ") == TrimSpace(" /a/b") == TrimSpace("/a/b") == "/a/b"
    ensures TrimSpace("/a") == "/a"
  {
    assert "/a/b "[..4] == "/a/b" && " /a/b"[1..] == "/a/b";
    TrimOfTrimmed("/a/b");
    TrimOfTrimmed("/a");
    assert TrimLeft("/a/b ") == "/a/b ";
    assert TrimRight("/a/b ") == TrimRight("/a/b");
    assert TrimLeft(" /a/b") == TrimLeft("/a/b");
  }

  lemma ExampleComps()
    ensures Comps("/a/b ") == Comps(" /a/b") == Comps("/a/b") == ["a", "b"] && Comps("/a") == ["a"]
    ensures Verbatim("/a/b /") == ["a", "b "] && Verbatim(" /a/b/") == [" ", "a", "b"]
    ensures ApiPath("/a/b ") == "/a/b /" && ApiPath(" /a/b") == " /a/b/"
    ensures TrimSpace("/a/b ") != "" && TrimSpace(" /a/b") != ""
  {
    hide Walk, TrimSpace, Push, Comps, Join, Split;
    TrimExamples();
    JoinExamples();
    WalkExamples();
    CompsOf("/a/b ", ["", "a", "b"]);
    CompsOf(" /a/b", ["", "a", "b"]);
    CompsOf("/a/b", ["", "a", "b"]);
    CompsOf("/a", ["", "a"]);
    SplitOfJoin(["", "a", "b "], '/');
    SplitOfJoin([" ", "a", "b"], '/');
    VerbatimSlash("/a/b ");
    VerbatimSlash(" /a/b");
    assert "/a/b " + "/" == "/a/b /" && " /a/b" + "/" == " /a/b/";
  }

  lemma JoinExamples()
    ensures Join(["", "a"], '/') == "/a" && Join(["", "a", "b"], '/') == "/a/b"
    ensures Join(["", "a", "b "], '/') == "/a/b " && Join([" ", "a", "b"], '/') == " /a/b"
  {
    JoinSnoc([""], "a", '/');
    assert [""] + ["a"] == ["", "a"];
    JoinSnoc(["", "a"], "b", '/');
    assert ["", "a"] + ["b"] == ["", "a", "b"];
    JoinSnoc(["", "a"], "b ", '/');
    assert ["", "a"] + ["b "] == ["", "a", "b "];
    JoinSnoc([" "], "a", '/');
    assert [" "] + ["a"] == [" ", "a"];
    JoinSnoc([" ", "a"], "b", '/');
    assert [" ", "a"] + ["b"] == [" ", "a", "b"];
  }

  lemma WalkExamples()
    ensures Walk([], ["", "a"]) == ["a"] && Walk([], ["", "a", "b"]) == ["a", "b"]
    ensures Walk([], ["", "a", "b "]) == ["a", "b "] && Walk([], [" ", "a", "b"]) == [" ", "a", "b"]
  {
    hide Walk;
    WalkOne([], "");
    WalkBehind("", ["a"]);
    WalkBehind("", ["a", "b"]);
    WalkBehind("", ["a", "b "]);
    WalkKeeps([], [" ", "a", "b"]);
    assert [""] + ["a"] == ["", "a"] && [""] + ["a", "b"] == ["", "a", "b"] && [""] + ["a", "b "] == ["", "a", "b "];
  }

  lemma WalkBehind(dropped: string, names: seq<string>)
    requires dropped == "" && AllCanonical(names)
    ensures Walk([], [dropped] + names) == names
  {
    hide Walk;
    WalkAppend([], [dropped], names);
    WalkOne([], dropped);
    WalkKeeps([], names);
    assert [] + names == names;
  }
}
