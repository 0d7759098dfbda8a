/** Lexical path algebra of the storage backend: normalization, component-wise prefix tests
    and when a second normalization changes nothing. */
module Paths {
  import opened Text

  // ---- `path.Clean` on rooted paths, as a component stack ----

  function Push(stack: seq<string>, c: string): seq<string> {
    if c == "" || c == "." then stack
    else if c == ".." then if stack == [] then [] else stack[..|stack| - 1]
    else stack + [c]
  }

  function Walk(stack: seq<string>, parts: seq<string>): seq<string>
    decreases |parts|
  {
    if parts == [] then stack else Walk(Push(stack, parts[0]), parts[1..])
  }

  function Render(comps: seq<string>): (s: string)
    ensures s != "" && s[0] == '/'
  {
    "/" + Join(comps, '/')
  }

  function Clean(p: string): string
    requires HasPrefix(p, "/")
  {
    Render(Walk([], Split(p[1..], '/')))
  }

  /** `normalizeQuotaPath`. */
  function Normalize(p: string): (r: string)
    ensures HasPrefix(r, "/")
  {
    var t := TrimSpace(p);
    if t == "" then "/"
    else
      var rooted := if HasPrefix(t, "/") then t else "/" + t;
      var cleaned := Clean(rooted);
      if cleaned == "." then "/" else cleaned
  }

  // ---- canonical form ----

  predicate Canonical(c: string) {
    c != "" && c != "." && c != ".." && '/' !in c
  }

  predicate AllCanonical(comps: seq<string>) {
    forall k :: 0 <= k < |comps| ==> Canonical(comps[k])
  }

  predicate NoSlash(parts: seq<string>) {
    forall k :: 0 <= k < |parts| ==> '/' !in parts[k]
  }

  lemma {:induction false} WalkCanonical(stack: seq<string>, parts: seq<string>)
    requires AllCanonical(stack) && NoSlash(parts)
    ensures AllCanonical(Walk(stack, parts))
    decreases |parts|
  {
    if parts != [] { WalkCanonical(Push(stack, parts[0]), parts[1..]); }
  }

  lemma {:induction false} WalkKeeps(stack: seq<string>, parts: seq<string>)
    requires AllCanonical(parts)
    ensures Walk(stack, parts) == stack + parts
    decreases |parts|
  {
    if parts == [] {
      assert stack + parts == stack;
    } else {
      WalkKeeps(Push(stack, parts[0]), parts[1..]);
      assert stack + [parts[0]] + parts[1..] == stack + parts;
    }
  }

  lemma {:induction false} WalkAppend(stack: seq<string>, a: seq<string>, b: seq<string>)
    ensures Walk(stack, a + b) == Walk(Walk(stack, a), b)
    decreases |a|
  {
    if a == [] {
      assert a + b == b;
    } else {
      assert (a + b)[0] == a[0] && (a + b)[1..] == a[1..] + b;
      WalkAppend(Push(stack, a[0]), a[1..], b);
    }
  }

  lemma WalkOne(stack: seq<string>, c: string)
    ensures Walk(stack, [c]) == Push(stack, c)
  {
    assert [c][1..] == [];
  }

  /** The components a path normalizes to. */
  function Comps(p: string): seq<string> {
    Walk([], Split(TrimSpace(p), '/'))
  }

  lemma CompsCanonical(p: string)
    ensures AllCanonical(Comps(p))
  {
    WalkCanonical([], Split(TrimSpace(p), '/'));
  }

  lemma LeadingSlash(s: string)
    ensures Walk([], Split("/" + s, '/')) == Walk([], Split(s, '/'))
  {
    assert "" + ['/'] + s == "/" + s;
    SplitAt("", '/', s);
    assert ([""] + Split(s, '/'))[1..] == Split(s, '/');
  }

  /** Normalizing always yields canonical form: a slash and canonical components, so no empty,
      `.` or `..` component and no trailing slash but the root's. The branch for "." is dead. */
  lemma NormalizeIsCanonical(p: string)
    ensures AllCanonical(Comps(p)) && Normalize(p) == Render(Comps(p)) && Normalize(p) != "."
  {
    hide Walk, TrimSpace, Join, Split;
    CompsCanonical(p);
    var t := TrimSpace(p);
    if t == "" {
      EmptySplit();
    } else {
      var rooted := if HasPrefix(t, "/") then t else "/" + t;
      assert "/" + rooted[1..] == rooted;
      LeadingSlash(rooted[1..]);
      if !HasPrefix(t, "/") { assert rooted[1..] == t; }
    }
  }

  lemma EmptySplit()
    ensures Walk([], Split("", '/')) == [] && Render([]) == "/"
  {
    assert Split("", '/') == [""];
    WalkOne([], "");
  }

  // ---- rendering and reading back ----

  lemma SplitRender(comps: seq<string>)
    requires AllCanonical(comps)
    ensures Walk([], Split(Render(comps), '/')) == comps
    ensures Walk([], Split(Render(comps)[1..], '/')) == comps
  {
    var body := Join(comps, '/');
    assert Render(comps)[1..] == body;
    LeadingSlash(body);
    if comps == [] {
      EmptySplit();
    } else {
      forall c | c in comps ensures '/' !in c { var k :| 0 <= k < |comps| && comps[k] == c; }
      SplitOfJoin(comps, '/');
      WalkKeeps([], comps);
      assert [] + comps == comps;
    }
  }

  lemma RenderInjective(a: seq<string>, b: seq<string>)
    requires AllCanonical(a) && AllCanonical(b) && Render(a) == Render(b)
    ensures a == b
  {
    SplitRender(a);
    SplitRender(b);
  }

  lemma NormalizeEqual(p: string, q: string)
    ensures Normalize(p) == Normalize(q) <==> Comps(p) == Comps(q)
  {
    hide Comps, Normalize, Render;
    NormalizeIsCanonical(p);
    NormalizeIsCanonical(q);
    if Normalize(p) == Normalize(q) { RenderInjective(Comps(p), Comps(q)); }
  }

  // ---- idempotence, exactly ----

  predicate EndsBlank(s: string) {
    s != "" && IsSpace(s[|s| - 1])
  }

  /** The last part that is not dropped or cancelled, -1 if there is none, by scanning from the
      end: "" and "." are skipped, and every ".." makes one earlier name be skipped; `ups` of
      them are still open. */
  function LastKept(parts: seq<string>, ups: nat): (k: int)
    ensures -1 <= k < |parts|
  {
    if parts == [] then -1
    else
      var n := |parts| - 1;
      if parts[n] == ".." then LastKept(parts[..n], ups + 1)
      else if parts[n] == "" || parts[n] == "." then LastKept(parts[..n], ups)
      else if ups > 0 then LastKept(parts[..n], ups - 1)
      else n
  }

  /** The last part that counts, if any, does not end in white space. */
  predicate Stable(p: string) {
    var parts := Split(TrimSpace(p), '/');
    var k := LastKept(parts, 0);
    k >= 0 ==> !EndsBlank(parts[k])
  }

  /** The scan from the end finds what the walk from the front leaves on top. */
  lemma {:induction false} LastKeptIsTop(parts: seq<string>, ups: nat)
    ensures var w, k := Walk([], parts), LastKept(parts, ups);
      if |w| <= ups then k == -1 else k >= 0 && parts[k] == w[|w| - 1 - ups]
    decreases |parts|
  {
    hide Walk;
    if parts == [] {
      WalkNothing([]);
    } else {
      var n := |parts| - 1;
      assert parts == parts[..n] + [parts[n]];
      WalkAppend([], parts[..n], [parts[n]]);
      WalkOne(Walk([], parts[..n]), parts[n]);
      var up := if parts[n] == ".." then ups + 1
                else if parts[n] == "" || parts[n] == "." || ups == 0 then ups else ups - 1;
      LastKeptIsTop(parts[..n], up);
    }
  }

  lemma WalkNothing(stack: seq<string>)
    ensures Walk(stack, []) == stack
  {
  }

  lemma StableIsComps(p: string)
    ensures Stable(p) <==> Comps(p) == [] || !EndsBlank(Comps(p)[|Comps(p)| - 1])
  {
    hide Walk, LastKept, TrimSpace, EndsBlank, Split;
    LastKeptIsTop(Split(TrimSpace(p), '/'), 0);
  }

  lemma {:induction false} TrimRightBlank(a: string, b: string)
    requires TrimRight(b) == ""
    ensures TrimRight(a + b) == TrimRight(a)
  {
    hide IsSpace;
    if b == "" {
      assert a + b == a;
    } else {
      assert (a + b)[..|a + b| - 1] == a + b[..|b| - 1];
      TrimRightBlank(a, b[..|b| - 1]);
    }
  }

  lemma {:induction false} JoinSnoc(front: seq<string>, last: string, c: char)
    requires front != []
    ensures Join(front + [last], c) == Join(front, c) + [c] + last
  {
    var all := front + [last];
    if |front| == 1 {
      assert all[1..] == [last];
    } else {
      assert all[1..] == front[1..] + [last];
      JoinSnoc(front[1..], last, c);
    }
  }

  /** Everything of a rendered path before its last component. */
  function Stem(front: seq<string>): (s: string)
    ensures s != "" && s[0] == '/' == s[|s| - 1]
  {
    if front == [] then "/" else Render(front) + "/"
  }

  lemma RenderSnoc(front: seq<string>, last: string)
    ensures Render(front + [last]) == Stem(front) + last
  {
    if front != [] { JoinSnoc(front, last, '/'); } else { assert front + [last] == [last]; }
  }

  /** What normalizing a rendered path again does: its last component is trimmed on the right
      and walked once more. */
  lemma SecondPass(front: seq<string>, last: string)
    requires AllCanonical(front) && Canonical(last)
    ensures Comps(Render(front + [last])) == Push(front, TrimRight(last))
  {
    hide IsSpace, Push, Walk;
    RenderSnoc(front, last);
    var t := TrimRight(last);
    var s := Stem(front) + last;
    assert !IsSpace('/') by { SlashIsNoSpace(); }
    assert TrimLeft(s) == s;
    if t == "" {
      TrimRightBlank(Stem(front), last);
      assert Stem(front) + t == Stem(front);
    } else {
      TrimRightSuffix(Stem(front), last);
    }
    assert TrimSpace(s) == Stem(front) + t;
    assert '/' !in t;
    SplitStem(front, t);
  }

  lemma SlashIsNoSpace()
    ensures !IsSpace('/')
  {
  }

  lemma StemIsJoin(front: seq<string>, t: string)
    ensures Stem(front) + t == "/" + Join(front + [t], '/')
  {
    hide Join, Stem;
    RenderSnoc(front, t);
  }

  lemma PartsHaveNoSlash(front: seq<string>, t: string)
    requires AllCanonical(front) && '/' !in t
    ensures forall c <- front + [t] :: '/' !in c
  {
    var parts := front + [t];
    forall c | c in parts ensures '/' !in c { var k :| 0 <= k < |parts| && parts[k] == c; }
  }

  lemma SplitStem(front: seq<string>, t: string)
    requires AllCanonical(front) && '/' !in t
    ensures Walk([], Split(Stem(front) + t, '/')) == Push(front, t)
  {
    hide *;
    var parts := front + [t];
    StemIsJoin(front, t);
    LeadingSlash(Join(parts, '/'));
    PartsHaveNoSlash(front, t);
    SplitOfJoin(parts, '/');
    WalkAppend([], front, [t]);
    WalkKeeps([], front);
    assert [] + front == front;
    WalkOne(front, t);
  }

  /** Main result: normalizing twice equals normalizing once if and only if the last
      component does not end in white space. */
  lemma IdempotentIff(p: string)
    ensures Normalize(Normalize(p)) == Normalize(p) <==> Stable(p)
  {
    hide Comps, Normalize, Push, TrimRight, IsSpace, Stable;
    StableIsComps(p);
    NormalizeIsCanonical(p);
    var cs := Comps(p);
    NormalizeEqual(Normalize(p), p);
    if cs == [] {
      RootComps();
    } else {
      var front, last := cs[..|cs| - 1], cs[|cs| - 1];
      assert cs == front + [last];
      SecondPass(front, last);
      PushTrimmed(front, last);
    }
  }

  lemma RootComps()
    ensures Comps(Render([])) == []
  {
    SlashIsNoSpace();
    assert Render([]) == "/";
    TrimOfTrimmed("/");
    LeadingSlash("");
    EmptySplit();
    assert "/" + "" == "/";
  }

  lemma PushTrimmed(front: seq<string>, last: string)
    requires Canonical(last)
    ensures Push(front, TrimRight(last)) == front + [last] <==> !EndsBlank(last)
  {
    var t := TrimRight(last);
    if EndsBlank(last) {
      assert |t| < |last|;
      if Push(front, t) == front + [t] { assert (front + [t])[|front|] != (front + [last])[|front|]; }
    }
  }

  /** The components of a text given by its parts. */
  lemma CompsOf(p: string, parts: seq<string>)
    requires parts != [] && NoSlash(parts) && TrimSpace(p) == Join(parts, '/')
    ensures Comps(p) == Walk([], parts)
  {
    hide Walk, TrimSpace, Join, Split;
    forall c | c in parts ensures '/' !in c { var k :| 0 <= k < |parts| && parts[k] == c; }
    SplitOfJoin(parts, '/');
  }

  /** Such an input: the blank before the slash is kept at first and trimmed the second time. */
  lemma SecondPassChanges()
    ensures Normalize("/foo /") == "/foo " && Normalize("/foo ") == "/foo"
  {
    hide Comps, Normalize, Walk, TrimSpace, Push, Join;
    FooTexts();
    CompsOf("/foo /", ["", "foo ", ""]);
    CompsOf("/foo ", ["", "foo"]);
    NormalizeIsCanonical("/foo /");
    NormalizeIsCanonical("/foo ");
  }

  lemma FooTexts()
    ensures TrimSpace("/foo /") == Join(["", "foo ", ""], '/') && TrimSpace("/foo ") == Join(["", "foo"], '/')
    ensures Walk([], ["", "foo ", ""]) == ["foo "] && Walk([], ["", "foo"]) == ["foo"]
    ensures Render(["foo "]) == "/foo " && Render(["foo"]) == "/foo"
  {
    hide TrimSpace, Walk;
    FooTrims();
    FooWalks();
    JoinSnoc([""], "foo", '/');
    JoinSnoc([""], "foo ", '/');
    JoinSnoc(["", "foo "], "", '/');
    assert [""] + ["foo"] == ["", "foo"] && [""] + ["foo "] == ["", "foo "];
    assert ["", "foo "] + [""] == ["", "foo ", ""];
  }

  lemma FooTrims()
    ensures TrimSpace("/foo /") == "/foo /" && TrimSpace("/foo ") == "/foo"
  {
    TrimOfTrimmed("/foo /");
    TrimOfTrimmed("/foo");
    assert TrimLeft("/foo ") == "/foo " && "/foo "[..4] == "/foo";
    assert TrimRight("/foo ") == TrimRight("/foo");
  }

  lemma FooWalks()
    ensures Walk([], ["", "foo ", ""]) == ["foo "] && Walk([], ["", "foo"]) == ["foo"]
  {
    assert Walk(["foo "], [""]) == ["foo "] by { WalkOne(["foo "], ""); }
    assert ["", "foo ", ""][1..] == ["foo ", ""] && ["foo ", ""][1..] == [""];
    assert ["", "foo"][1..] == ["foo"];
    WalkOne([], "foo");
  }

  /** No white space stands directly before a slash. */
  predicate NoBlankBeforeSlash(s: string) {
    forall i :: 0 <= i < |s| - 1 && s[i + 1] == '/' ==> !IsSpace(s[i])
  }

  predicate NoneEndsBlank(parts: seq<string>) {
    forall k :: 0 <= k < |parts| ==> !EndsBlank(parts[k])
  }

  lemma CutEndsClean(s: string, a: string, b: string)
    requires s == a + ['/'] + b && NoBlankBeforeSlash(s) && !EndsBlank(s)
    ensures !EndsBlank(a) && !EndsBlank(b) && NoBlankBeforeSlash(b)
  {
    hide IsSpace;
    if a != "" { assert s[|a| - 1] == a[|a| - 1] && s[|a| - 1 + 1] == '/'; }
    assert forall i :: 0 <= i < |b| ==> b[i] == s[|a| + 1 + i];
    forall i | 0 <= i < |b| - 1 && b[i + 1] == '/' ensures !IsSpace(b[i]) {
      assert s[|a| + 1 + i + 1] == '/';
    }
  }

  lemma {:induction false} PartsEndClean(s: string)
    requires NoBlankBeforeSlash(s) && !EndsBlank(s)
    ensures NoneEndsBlank(Split(s, '/'))
    decreases |s|
  {
    hide IsSpace, Cut, IndexOf;
    if Cut(s, '/').Some? {
      var (a, b) := Cut(s, '/').value;
      CutEndsClean(s, a, b);
      PartsEndClean(b);
    }
  }

  lemma {:induction false} WalkEndsClean(stack: seq<string>, parts: seq<string>)
    requires NoneEndsBlank(stack) && NoneEndsBlank(parts)
    ensures NoneEndsBlank(Walk(stack, parts))
    decreases |parts|
  {
    hide EndsBlank;
    if parts != [] { WalkEndsClean(Push(stack, parts[0]), parts[1..]); }
  }

  /** A condition on the text alone that makes a path stable. */
  lemma StableWithoutBlanks(p: string)
    requires NoBlankBeforeSlash(TrimSpace(p))
    ensures Stable(p) && Normalize(Normalize(p)) == Normalize(p)
  {
    hide IsSpace, Walk, Split, Stable;
    PartsEndClean(TrimSpace(p));
    WalkEndsClean([], Split(TrimSpace(p), '/'));
    StableIsComps(p);
    IdempotentIff(p);
  }

  // ---- appending a slash, exactly ----

  lemma {:induction false} SplitSnoc(s: string, t: string)
    requires '/' !in t
    ensures var a, b := Split(s, '/'), Split(s + t, '/');
      |a| == |b| && a[..|a| - 1] == b[..|b| - 1] && b[|b| - 1] == a[|a| - 1] + t
    decreases |s|
  {
    hide Cut, IndexOf, Split;
    if '/' !in s {
      SplitNone(s);
      SplitNone(s + t);
    } else {
      var (a, b) := Cut(s, '/').value;
      SplitSnoc(b, t);
      assert s + t == a + ['/'] + (b + t);
      SplitAt(a, '/', b + t);
      SplitAt(a, '/', b);
    }
  }

  lemma SplitNone(s: string)
    requires '/' !in s
    ensures Split(s, '/') == [s]
  {
  }

  lemma {:induction false} SplitTrailingSlash(s: string)
    ensures Split(s + "/", '/') == Split(s, '/') + [""]
    decreases |s|
  {
    hide Cut, IndexOf, Split;
    SplitNone("");
    if '/' !in s {
      assert s + "/" == s + ['/'] + "";
      SplitAt(s, '/', "");
      SplitNone(s);
    } else {
      var (a, b) := Cut(s, '/').value;
      SplitTrailingSlash(b);
      assert s + "/" == a + ['/'] + (b + "/");
      SplitAt(a, '/', b + "/");
      SplitAt(a, '/', b);
    }
  }

  lemma {:induction false} TrimLeftAppend(a: string, b: string)
    requires TrimLeft(a) != ""
    ensures TrimLeft(a + b) == TrimLeft(a) + b
  {
    hide IsSpace;
    assert (a + b)[0] == a[0];
    if IsSpace(a[0]) {
      assert (a + b)[1..] == a[1..] + b;
      TrimLeftAppend(a[1..], b);
    } else {
      TrimLeftKeeps(a);
      TrimLeftKeeps(a + b);
    }
  }

  lemma {:induction false} TrimRightParts(s: string) returns (ws: string)
    ensures s == TrimRight(s) + ws
    ensures ws == "" <==> !EndsBlank(s)
    ensures forall c <- ws :: IsSpace(c)
  {
    if EndsBlank(s) {
      ws := TrimRightParts(s[..|s| - 1]);
      ws := ws + [s[|s| - 1]];
    } else {
      ws := "";
    }
  }

  lemma {:induction false} TrimLeftEnd(s: string)
    requires TrimLeft(s) != ""
    ensures EndsBlank(TrimLeft(s)) <==> EndsBlank(s)
  {
    if IsSpace(s[0]) { TrimLeftEnd(s[1..]); }
  }

  /** Main result: for a path that is not blank, asking for it with a trailing slash names the
      same normalized path if and only if the path has no trailing white space. */
  lemma SlashIsHarmlessIff(p: string)
    requires TrimSpace(p) != ""
    ensures Normalize(p + "/") == Normalize(p) <==> !EndsBlank(p)
  {
    hide Comps, Normalize, Push, IsSpace, TrimSpace, TrimLeft, TrimRight;
    var x := TrimSpace(p);
    var ws := BlankTail(p);
    TailComps(p, ws);
    NormalizeEqual(p + "/", p);
    var parts := Split(x, '/');
    var front, last := parts[..|parts| - 1], parts[|parts| - 1];
    var stack := Walk([], front);
    assert Comps(p) == Push(stack, last) && Comps(p + "/") == Push(stack, last + ws);
    if ws == "" {
      assert last + ws == last;
    } else {
      PushDiffers(stack, last, ws);
    }
  }

  lemma BlankTail(p: string) returns (ws: string)
    requires TrimSpace(p) != ""
    ensures TrimLeft(p) == TrimSpace(p) + ws
    ensures ws == "" <==> !EndsBlank(p)
    ensures forall c <- ws :: IsSpace(c)
  {
    hide IsSpace;
    ws := TrimRightParts(TrimLeft(p));
    assert TrimLeft(p) != "";
    TrimLeftEnd(p);
  }

  lemma TailComps(p: string, ws: string)
    requires TrimSpace(p) != "" && TrimLeft(p) == TrimSpace(p) + ws && forall c <- ws :: IsSpace(c)
    ensures var parts := Split(TrimSpace(p), '/');
      var stack := Walk([], parts[..|parts| - 1]);
      && Comps(p) == Push(stack, parts[|parts| - 1])
      && Comps(p + "/") == Push(stack, parts[|parts| - 1] + ws)
  {
    hide IsSpace, Push, Walk, Split, TrimLeft, TrimRight;
    var x := TrimSpace(p);
    TrimWithSlash(p, ws);
    LastPart(x);
    assert '/' !in ws by { SlashIsNoSpace(); }
    SplitSnoc(x, ws);
    SplitTrailingSlash(x + ws);
    LastPart(x + ws);
    var parts' := Split(x + ws, '/');
    var stack' := Walk([], parts');
    WalkAppend([], parts', [""]);
    WalkOne(stack', "");
    PushNothing(stack');
  }

  lemma TrimWithSlash(p: string, ws: string)
    requires TrimLeft(p) != "" && TrimLeft(p) == TrimSpace(p) + ws
    ensures TrimSpace(p + "/") == TrimSpace(p) + ws + "/"
  {
    hide IsSpace;
    SlashIsNoSpace();
    TrimLeftAppend(p, "/");
  }

  /** Walking the parts of a text is walking all but the last and then pushing the last. */
  lemma LastPart(s: string)
    ensures var parts := Split(s, '/');
      Walk([], parts) == Push(Walk([], parts[..|parts| - 1]), parts[|parts| - 1])
  {
    hide Push, Walk, Split;
    var parts := Split(s, '/');
    var front, last := parts[..|parts| - 1], parts[|parts| - 1];
    assert parts == front + [last];
    WalkAppend([], front, [last]);
    WalkOne(Walk([], front), last);
  }

  lemma PushNothing(stack: seq<string>)
    ensures Push(stack, "") == stack
  {
  }

  lemma PushDiffers(stack: seq<string>, last: string, ws: string)
    requires ws != "" && forall c <- ws :: IsSpace(c)
    ensures Push(stack, last + ws) != Push(stack, last)
  {
    var c := last + ws;
    PushBlank(stack, last, ws);
    if Push(stack, last) == stack + [last] {
      assert (stack + [last])[|stack|] != (stack + [c])[|stack|];
    }
  }

  /** A path with trailing white space, asked for with a slash, names something else than its
      second normalization does. */
  lemma SecondPassDiffers(p: string)
    requires TrimSpace(p) != "" && EndsBlank(p)
    ensures Comps(p + "/") != Comps(Normalize(p))
  {
    hide *;
    var ws := BlankTail(p);
    TailComps(p, ws);
    NormalizeIsCanonical(p);
    var cs, parts := Comps(p), Split(TrimSpace(p), '/');
    var stack, last := Walk([], parts[..|parts| - 1]), parts[|parts| - 1];
    PushBlank(stack, last, ws);
    if cs == [] {
      RootComps();
    } else {
      var front, end := cs[..|cs| - 1], cs[|cs| - 1];
      assert cs == front + [end];
      LastIsCanonical(front, end);
      SecondPass(front, end);
      PushShorter(front, end);
      if cs == stack + [last] {
        assert front == stack && end == last;
        assert (stack + [TrimRight(end)])[|stack|] != (stack + [last + ws])[|stack|];
      }
    }
  }

  lemma LastIsCanonical(front: seq<string>, last: string)
    requires AllCanonical(front + [last])
    ensures AllCanonical(front) && Canonical(last)
  {
    var all := front + [last];
    assert Canonical(all[|front|]);
    forall k | 0 <= k < |front| ensures Canonical(front[k]) { assert Canonical(all[k]); }
  }

  lemma PushBlank(stack: seq<string>, last: string, ws: string)
    requires ws != "" && forall c <- ws :: IsSpace(c)
    ensures Push(stack, last + ws) == stack + [last + ws]
    ensures |Push(stack, last)| <= |stack| || Push(stack, last) == stack + [last]
  {
    var c := last + ws;
    assert c[|c| - 1] == ws[|ws| - 1] && ws[|ws| - 1] in ws;
    assert c != "." && c != "..";
  }

  lemma PushShorter(front: seq<string>, end: string)
    ensures var r := Push(front, TrimRight(end));
      |r| <= |front| || (r == front + [TrimRight(end)] && |TrimRight(end)| <= |end|)
  {
    hide IsSpace;
  }

  // ---- a text read as it stands, exactly ----

  /** The components of a text that nobody trims. */
  function Verbatim(s: string): seq<string> {
    Walk([], Split(s, '/'))
  }

  lemma VerbatimSlash(s: string)
    ensures Verbatim(s + "/") == Verbatim(s)
  {
    hide Walk, Split;
    SplitTrailingSlash(s);
    WalkAppend([], Split(s, '/'), [""]);
    WalkOne(Verbatim(s), "");
    PushNothing(Verbatim(s));
  }

  /** How many components in front of them the parts cancel. */
  function Pending(parts: seq<string>): nat {
    if parts == [] then 0
    else
      var rest := Pending(parts[1..]);
      if parts[0] == ".." then rest + 1
      else if parts[0] == "" || parts[0] == "." || rest == 0 then rest
      else rest - 1
  }

  function Under(stack: seq<string>, n: nat): seq<string> {
    if n <= |stack| then stack[..|stack| - n] else []
  }

  /** Walking parts from a stack cancels its top and adds what the parts leave by themselves. */
  lemma {:induction false} WalkPending(stack: seq<string>, parts: seq<string>)
    ensures Walk(stack, parts) == Under(stack, Pending(parts)) + Walk([], parts)
    decreases |parts|
  {
    hide Walk;
    if parts == [] {
      WalkNothing(stack);
      WalkNothing([]);
    } else {
      var c, rest := parts[0], parts[1..];
      WalkFirst(stack, parts);
      WalkFirst([], parts);
      WalkPending(Push(stack, c), rest);
      WalkPending(Push([], c), rest);
    }
  }

  lemma WalkFirst(stack: seq<string>, parts: seq<string>)
    requires parts != []
    ensures Walk(stack, parts) == Walk(Push(stack, parts[0]), parts[1..])
  {
    hide Push;
  }

  predicate StartsBlank(s: string) {
    s != "" && IsSpace(s[0])
  }

  /** A ".." further on cancels the first part. */
  predicate FirstCancelled(s: string) {
    Pending(Split(s, '/')[1..]) > 0
  }

  lemma SplitLead(lead: string, s: string)
    requires '/' !in lead
    ensures var a, b := Split(s, '/'), Split(lead + s, '/');
      b[0] == lead + a[0] && b[1..] == a[1..]
  {
    hide IndexOf, Split;
    if '/' !in s {
      SplitNone(s);
      SplitNone(lead + s);
    } else {
      var (a, b) := Cut(s, '/').value;
      assert lead + s == (lead + a) + ['/'] + b;
      SplitAt(lead + a, '/', b);
      SplitAt(a, '/', b);
    }
  }

  /** What blanks in front of a text do to its components. */
  lemma LeadingBlank(lead: string, s: string)
    requires lead != "" && forall c <- lead :: IsSpace(c)
    ensures var parts := Split(s, '/');
      var first, rest := parts[0], Walk([], parts[1..]);
      if Pending(parts[1..]) > 0 then Verbatim(lead + s) == Verbatim(s)
      else Verbatim(lead + s) == [lead + first] + rest && Verbatim(s) == Push([], first) + rest
  {
    hide IsSpace, Walk, Split;
    SlashIsNoSpace();
    SplitLead(lead, s);
    var parts := Split(s, '/');
    WalkFirst([], parts);
    WalkFirst([], Split(lead + s, '/'));
    PushLead(lead, parts[0]);
    WalkPending(Push([], parts[0]), parts[1..]);
    WalkPending([lead + parts[0]], parts[1..]);
  }

  lemma PushLead(lead: string, first: string)
    requires lead != "" && forall c <- lead :: IsSpace(c)
    ensures Push([], lead + first) == [lead + first]
  {
    assert (lead + first)[0] == lead[0] && lead[0] in lead;
    assert !IsSpace('.');
  }

  /** Normalizing makes a path no deeper, and its first component no longer, than the text
      without the blanks in front of it. */
  lemma SecondPassShrinks(p: string)
    requires TrimSpace(p) != ""
    ensures var v, c := Verbatim(TrimLeft(p)), Comps(Normalize(p));
      |c| <= |v| && (|c| == |v| && v != [] ==> |c[0]| <= |v[0]|)
  {
    hide *;
    var ws := BlankTail(p);
    TailComps(p, ws);
    UntrimmedTail(p, ws);
    NormalizeIsCanonical(p);
    var parts := Split(TrimSpace(p), '/');
    var stack, last := Walk([], parts[..|parts| - 1]), parts[|parts| - 1];
    if ws != "" { PushBlank(stack, last, ws); } else { assert last + ws == last; }
    var cs := Comps(p);
    if cs == [] {
      RootComps();
    } else {
      var front, end := cs[..|cs| - 1], cs[|cs| - 1];
      assert cs == front + [end];
      LastIsCanonical(front, end);
      SecondPass(front, end);
      PushShorter(front, end);
    }
  }

  lemma UntrimmedTail(p: string, ws: string)
    requires TrimLeft(p) != "" && TrimLeft(p) == TrimSpace(p) + ws
    ensures Comps(p + "/") == Verbatim(TrimLeft(p))
  {
    hide Walk, Split, TrimSpace, TrimLeft;
    TrimWithSlash(p, ws);
    VerbatimSlash(TrimLeft(p));
  }

  lemma LeadOf(p: string) returns (lead: string)
    ensures p == lead + TrimLeft(p) && forall c <- lead :: IsSpace(c)
    ensures lead != "" <==> StartsBlank(p)
  {
    if StartsBlank(p) {
      lead := LeadOf(p[1..]);
      lead := [p[0]] + lead;
    } else {
      lead := "";
    }
  }

  /** Without blanks in front, or with them cancelled, only the end of the text matters. */
  lemma TailDecides(p: string)
    requires TrimSpace(p) != ""
    ensures Verbatim(TrimLeft(p)) == Comps(Normalize(p)) <==> !EndsBlank(p) && Stable(p)
  {
    hide *;
    var ws := BlankTail(p);
    UntrimmedTail(p, ws);
    NormalizeEqual(Normalize(p), p);
    NormalizeEqual(p + "/", p);
    SlashIsHarmlessIff(p);
    IdempotentIff(p);
    if EndsBlank(p) { SecondPassDiffers(p); }
  }

  /** Main result: for every path that is not blank, the text read as it stands names the path
      that two normalizations name if and only if it has no white space at its end or at the end
      of its last part that counts, and any at its start is in a part that a ".." cancels. */
  lemma VerbatimIsCheckedIff(p: string)
    requires TrimSpace(p) != ""
    ensures Verbatim(p) == Comps(Normalize(p)) <==>
      !EndsBlank(p) && Stable(p) && (StartsBlank(p) ==> FirstCancelled(p))
  {
    hide *;
    var lead := LeadOf(p);
    var s := TrimLeft(p);
    TailDecides(p);
    if StartsBlank(p) {
      LeadingBlank(lead, s);
      SplitLeadRest(lead, s);
      if !FirstCancelled(p) {
        SecondPassShrinks(p);
        LeadDiffers(lead, Split(s, '/')[0], Walk([], Split(s, '/')[1..]), Comps(Normalize(p)));
      }
    } else {
      assert lead + s == s;
    }
  }

  lemma SplitLeadRest(lead: string, s: string)
    requires forall c <- lead :: IsSpace(c)
    ensures FirstCancelled(lead + s) <==> Pending(Split(s, '/')[1..]) > 0
  {
    hide Split, Pending;
    SlashIsNoSpace();
    SplitLead(lead, s);
  }

  lemma LeadDiffers(lead: string, first: string, rest: seq<string>, c: seq<string>)
    requires lead != ""
    requires var v := Push([], first) + rest; |c| <= |v| && (|c| == |v| && v != [] ==> |c[0]| <= |v[0]|)
    ensures [lead + first] + rest != c
  {
    var g := [lead + first] + rest;
    assert |g[0]| > |first|;
  }

  // ---- `filepath.Rel` and the prefix test ----

  function Common(a: seq<string>, b: seq<string>): (k: nat)
    ensures k <= |a| && k <= |b| && a[..k] == b[..k]
    ensures k < |a| && k < |b| ==> a[k] != b[k]
  {
    if a == [] || b == [] || a[0] != b[0] then 0
    else
      var k := Common(a[1..], b[1..]);
      assert a[..k + 1] == [a[0]] + a[1..][..k] && b[..k + 1] == [b[0]] + b[1..][..k];
      k + 1
  }

  function Ups(n: nat): (r: seq<string>)
    ensures |r| == n && forall k :: 0 <= k < n ==> r[k] == ".."
  {
    seq(n, _ => "..")
  }

  function RelComps(base: seq<string>, targ: seq<string>): seq<string> {
    var k := Common(base, targ);
    Ups(|base| - k) + targ[k..]
  }

  /** `filepath.Rel`: the relative path that leads from one path to the other; an error when
      only one of them is rooted. */
  function Rel(base: string, targ: string): Option<string> {
    if !HasPrefix(base, "/") || !HasPrefix(targ, "/") then None
    else
      var r := RelComps(Walk([], Split(base[1..], '/')), Walk([], Split(targ[1..], '/')));
      Some(if r == [] then "." else Join(r, '/'))
  }

  lemma {:induction false} WalkUps(stack: seq<string>, n: nat)
    requires n <= |stack|
    ensures Walk(stack, Ups(n)) == stack[..|stack| - n]
    decreases n
  {
    if n > 0 {
      assert Ups(n)[1..] == Ups(n - 1);
      WalkUps(stack[..|stack| - 1], n - 1);
    } else {
      assert stack[..|stack|] == stack;
    }
  }

  lemma RelOfRendered(base: seq<string>, targ: seq<string>)
    requires AllCanonical(base) && AllCanonical(targ)
    ensures var r := RelComps(base, targ);
      Rel(Render(base), Render(targ)) == Some(if r == [] then "." else Join(r, '/'))
  {
    hide Walk, Split, Join, RelComps;
    SplitRender(base);
    SplitRender(targ);
  }

  /** Its documented contract: walking the relative path from the base arrives at the target. */
  lemma RelLeadsToTarget(base: seq<string>, targ: seq<string>)
    requires AllCanonical(base) && AllCanonical(targ)
    ensures Rel(Render(base), Render(targ)).Some?
    ensures Walk(base, Split(Rel(Render(base), Render(targ)).value, '/')) == targ
  {
    hide Push, Walk, Split, Join, Render, Common;
    SplitRender(base);
    SplitRender(targ);
    var k := Common(base, targ);
    var r := RelComps(base, targ);
    RelOfRendered(base, targ);
    if r == [] {
      assert base == base[..k] == targ[..k] == targ;
      DotSplit(base);
    } else {
      forall c | c in r ensures '/' !in c {
        var j :| 0 <= j < |r| && r[j] == c;
        if j >= |base| - k { assert c == targ[k + j - (|base| - k)]; }
      }
      SplitOfJoin(r, '/');
      WalkAppend(base, Ups(|base| - k), targ[k..]);
      WalkUps(base, |base| - k);
      WalkKeeps(base[..k], targ[k..]);
      assert base[..k] + targ[k..] == targ;
    }
  }

  lemma DotSplit(base: seq<string>)
    ensures Walk(base, Split(".", '/')) == base
  {
    assert Split(".", '/') == ["."];
    WalkOne(base, ".");
  }

  /** `pathHasPrefix`. */
  predicate PathHasPrefix(p: string, prefix: string) {
    match Rel(Normalize(prefix), Normalize(p))
    case None => false
    case Some(rel) => rel != ".." && !HasPrefix(rel, "../")
  }

  /** `pathStrictlyUnder`. */
  predicate PathStrictlyUnder(p: string, prefix: string) {
    PathHasPrefix(p, prefix) && Normalize(p) != Normalize(prefix)
  }

  /** A relative path starts by going up exactly when its first component is `..`. */
  lemma GoesUp(r: seq<string>)
    requires r != [] && NoSlash(r) && r[0] != ""
    ensures Join(r, '/') == ".." || HasPrefix(Join(r, '/'), "../") <==> r[0] == ".."
  {
    hide Cut, IndexOf;
    var s := Join(r, '/');
    var rest := s[if |s| >= 3 then 3 else 0..];
    if HasPrefix(s, "../") {
      assert s == ".." + ['/'] + rest;
      CutAt("..", '/', rest);
    }
    if |r| > 1 {
      assert s == r[0] + ['/'] + Join(r[1..], '/');
      CutAt(r[0], '/', Join(r[1..], '/'));
      assert s[|r[0]|] == '/';
    }
  }

  /** A relative path between canonical components starts by going up exactly when the base is
      no prefix of the target. */
  lemma RelGoesUp(base: seq<string>, targ: seq<string>)
    requires AllCanonical(base) && AllCanonical(targ)
    ensures var r := RelComps(base, targ);
      && NoSlash(r) && (r != [] ==> r[0] != "")
      && (r != [] && r[0] == ".." <==> !(base <= targ))
  {
    var k := Common(base, targ);
    if k < |base| { assert Canonical(base[k]); } else if k < |targ| { assert Canonical(targ[k]); }
    if base <= targ { assert base == targ[..|base|]; }
  }

  /** The prefix test on rendered paths. */
  lemma RelTest(base: seq<string>, targ: seq<string>)
    requires AllCanonical(base) && AllCanonical(targ)
    ensures var rel := Rel(Render(base), Render(targ));
      rel.Some? && (rel.value != ".." && !HasPrefix(rel.value, "../") <==> base <= targ)
  {
    hide Join, Render, RelComps;
    RelOfRendered(base, targ);
    RelGoesUp(base, targ);
    var r := RelComps(base, targ);
    if r != [] { GoesUp(r); }
  }

  /** Main result: for all inputs, the prefix test holds exactly when the prefix's normalized
      component list is a prefix of the path's. */
  lemma PrefixIsComponentPrefix(p: string, prefix: string)
    ensures PathHasPrefix(p, prefix) <==> Comps(prefix) <= Comps(p)
    ensures PathStrictlyUnder(p, prefix) <==> Comps(prefix) < Comps(p)
  {
    hide Comps, Normalize, Rel, Render, HasPrefix;
    NormalizeIsCanonical(p);
    NormalizeIsCanonical(prefix);
    NormalizeEqual(p, prefix);
    RelTest(Comps(prefix), Comps(p));
  }

  /** The prefix test is a preorder, antisymmetric up to normalization. */
  lemma PrefixIsPreorder(p: string, q: string, r: string)
    ensures PathHasPrefix(p, p)
    ensures PathHasPrefix(p, q) && PathHasPrefix(q, r) ==> PathHasPrefix(p, r)
    ensures PathHasPrefix(p, q) && PathHasPrefix(q, p) ==> Normalize(p) == Normalize(q)
  {
    hide PathHasPrefix, Comps, Normalize;
    PrefixIsComponentPrefix(p, p);
    PrefixIsComponentPrefix(p, q);
    PrefixIsComponentPrefix(q, r);
    PrefixIsComponentPrefix(q, p);
    PrefixIsComponentPrefix(p, r);
    NormalizeEqual(p, q);
  }
}
