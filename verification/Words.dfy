/** Finding a cluster name as a whole word in a message. Texts are sequences of bytes here, one
    byte a `char`. */
module Words {
  import opened Text

  /** `isNameChar`. */
  predicate NameChar(b: char) {
    'a' <= b <= 'z' || 'A' <= b <= 'Z' || '0' <= b <= '9' || b == '-' || b == '_' || b == '.'
  }

  /** Names like "node-1.rack_2" are one word: letters, digits and three signs join. */
  lemma NameCharIff(b: char)
    ensures NameChar(b) <==> IsDigit(b) || 'a' <= b <= 'z' || 'A' <= b <= 'Z' || b in "-_."
  {
  }

  /** `strings.Index`: the first occurrence at or after `from`, or -1. */
  function IndexFrom(s: string, sub: string, from: nat): (j: int)
    ensures j >= 0 ==> from <= j && OccursAt(s, sub, j) && forall k :: from <= k < j ==> !OccursAt(s, sub, k)
    ensures j < 0 ==> forall k :: from <= k ==> !OccursAt(s, sub, k)
    decreases |s| - from
  {
    if from + |sub| > |s| then -1
    else if OccursAt(s, sub, from) then from
    else IndexFrom(s, sub, from + 1)
  }

  /** An occurrence with no name character directly before or after it. */
  predicate BoundedAt(s: string, name: string, p: int) {
    && OccursAt(s, name, p)
    && (p == 0 || !NameChar(s[p - 1]))
    && (p + |name| == |s| || !NameChar(s[p + |name|]))
  }

  ghost predicate Bounded(s: string, name: string) {
    name != "" && exists p :: BoundedAt(s, name, p)
  }

  /** Main result: the scan finds a bounded occurrence exactly when there is one, overlapping
      occurrences included. */
  method ContainsWord(s: string, name: string) returns (found: bool)
    ensures found <==> Bounded(s, name)
  {
    if name == "" { return false; }
    var i := 0;
    while true
      invariant 0 <= i <= |s|
      invariant forall p :: 0 <= p < i ==> !BoundedAt(s, name, p)
      decreases |s| - i
    {
      var start := IndexFrom(s, name, i);
      if start < 0 { return false; }
      var end := start + |name|;
      if (start == 0 || !NameChar(s[start - 1])) && (end == |s| || !NameChar(s[end])) {
        assert BoundedAt(s, name, start);
        return true;
      }
      i := start + 1;
    }
  }

  // ---- words as tokens ----

  function Run(s: string): (k: nat)
    ensures k <= |s| && (forall i :: 0 <= i < k ==> NameChar(s[i])) && (k < |s| ==> !NameChar(s[k]))
  {
    if s == "" || !NameChar(s[0]) then 0 else 1 + Run(s[1..])
  }

  /** The maximal runs of name characters, in order. */
  function Tokens(s: string): seq<string>
    decreases |s|
  {
    if s == "" then []
    else if !NameChar(s[0]) then Tokens(s[1..])
    else [s[..Run(s)]] + Tokens(s[Run(s)..])
  }

  predicate NameText(name: string) {
    name != "" && forall i :: 0 <= i < |name| ==> NameChar(name[i])
  }

  lemma Shift(s: string, name: string, k: nat, p: nat)
    requires NameText(name) && 0 < k <= |s| && p >= 1
    ensures BoundedAt(s[k..], name, p) <==> BoundedAt(s, name, k + p)
  {
    var t := s[k..];
    if p + |name| <= |t| {
      assert t[p..p + |name|] == s[k + p..k + p + |name|];
    }
  }

  lemma ShiftToStart(s: string, name: string, k: nat)
    requires NameText(name) && 0 < k <= |s| && !NameChar(s[k - 1])
    ensures BoundedAt(s[k..], name, 0) <==> BoundedAt(s, name, k)
  {
    var t := s[k..];
    if |name| <= |t| {
      assert t[0..|name|] == s[k..k + |name|];
    }
  }

  /** An occurrence starts with a name character. */
  lemma StartsWithNameChar(s: string, name: string, p: int)
    requires NameText(name) && BoundedAt(s, name, p)
    ensures NameChar(s[p])
  {
    assert s[p..p + |name|][0] == name[0];
  }

  lemma AtRun(s: string, name: string)
    requires NameText(name) && s != "" && NameChar(s[0])
    ensures BoundedAt(s, name, 0) <==> name == s[..Run(s)]
    ensures forall p :: 0 < p <= Run(s) ==> !BoundedAt(s, name, p)
  {
    var k := Run(s);
    if BoundedAt(s, name, 0) {
      assert s[..|name|] == name;
      assert forall i :: 0 <= i < |name| ==> s[i] == name[i];
      assert |name| == k;
    }
    forall p | 0 < p <= k ensures !BoundedAt(s, name, p) {
      if BoundedAt(s, name, p) { StartsWithNameChar(s, name, p); }
    }
  }

  /** Main result: for a name made of name characters, occurring as a bounded word is the same
      as being one of the tokens. */
  lemma {:induction false} WordIsToken(s: string, name: string)
    requires NameText(name)
    ensures Bounded(s, name) <==> name in Tokens(s)
    decreases |s|
  {
    hide NameChar, OccursAt;
    if s == "" {
      forall p ensures !BoundedAt(s, name, p) { NotInEmpty(name, p); }
    } else if !NameChar(s[0]) {
      WordIsToken(s[1..], name);
      ShiftToStart(s, name, 1);
      if p :| BoundedAt(s, name, p) {
        StartsInside(s, name, p);
        StartsWithNameChar(s, name, p);
        if p >= 2 { Shift(s, name, 1, p - 1); }
        assert BoundedAt(s[1..], name, p - 1);
      }
      if p :| BoundedAt(s[1..], name, p) {
        StartsInside(s[1..], name, p);
        if p >= 1 { Shift(s, name, 1, p); }
        assert BoundedAt(s, name, p + 1);
      }
    } else {
      var k := Run(s);
      WordIsToken(s[k..], name);
      AtRun(s, name);
      AfterRun(s, name, k);
    }
  }

  lemma AfterRun(s: string, name: string, k: nat)
    requires NameText(name) && 0 < k <= |s| && (k < |s| ==> !NameChar(s[k]))
    requires forall p :: 0 < p <= k ==> !BoundedAt(s, name, p)
    ensures Bounded(s, name) <==> BoundedAt(s, name, 0) || Bounded(s[k..], name)
  {
    hide NameChar, OccursAt;
    if p :| BoundedAt(s, name, p) && p != 0 {
      StartsInside(s, name, p);
      Shift(s, name, k, p - k);
      assert BoundedAt(s[k..], name, p - k);
    }
    if p :| BoundedAt(s[k..], name, p) {
      StartsInside(s[k..], name, p);
      StartsWithNameChar(s[k..], name, p);
      Shift(s, name, k, p);
      assert BoundedAt(s, name, k + p);
    }
  }

  lemma StartsInside(s: string, name: string, p: int)
    requires BoundedAt(s, name, p)
    ensures 0 <= p <= |s| - |name|
  {
  }

  lemma NotInEmpty(name: string, p: int)
    requires name != ""
    ensures !BoundedAt("", name, p)
  {
  }

  // ---- the longest known cluster name ----

  predicate LongestFirst(names: seq<string>) {
    forall i, j :: 0 <= i < j < |names| ==> |names[i]| >= |names[j]|
  }

  lemma InsertKeepsOrder(r: seq<string>, p: nat, n: string)
    requires LongestFirst(r) && p <= |r|
    requires forall k :: 0 <= k < p ==> |r[k]| >= |n|
    requires p < |r| ==> |r[p]| < |n|
    ensures LongestFirst(r[..p] + [n] + r[p..])
  {
    var a, b := r[..p], r[p..];
    var r' := a + [n] + b;
    forall i, j | 0 <= i < j < |r'| ensures |r'[i]| >= |r'[j]| {
      var x := if i < p then r[i] else if i == p then n else r[i - 1];
      var y := if j < p then r[j] else if j == p then n else r[j - 1];
      assert r'[i] == x && r'[j] == y;
    }
  }

  lemma InsertAdds(r: seq<string>, p: nat, n: string)
    requires p <= |r|
    ensures multiset(r[..p] + [n] + r[p..]) == multiset(r) + multiset{n}
  {
    assert r == r[..p] + r[p..];
  }

  /** Sorting by length, longest first; equal lengths may come in any order. */
  method SortByLength(names: seq<string>) returns (r: seq<string>)
    ensures LongestFirst(r) && multiset(r) == multiset(names)
  {
    hide LongestFirst;
    r := [];
    NothingToSort();
    for i := 0 to |names|
      invariant LongestFirst(r) && multiset(r) == multiset(names[..i])
    {
      var p := 0;
      while p < |r| && |r[p]| >= |names[i]|
        invariant 0 <= p <= |r|
        invariant forall k :: 0 <= k < p ==> |r[k]| >= |names[i]|
      {
        p := p + 1;
      }
      assert names[..i + 1] == names[..i] + [names[i]];
      InsertKeepsOrder(r, p, names[i]);
      InsertAdds(r, p, names[i]);
      r := r[..p] + [names[i]] + r[p..];
    }
    assert names[..|names|] == names;
  }

  lemma NothingToSort()
    ensures LongestFirst([])
  {
  }

  /** The first loop of `extractClusterName`: when it returns a name, that is a longest known
      cluster that occurs as a word; otherwise none does. */
  method LongestKnownCluster(lower: string, knownClusters: seq<string>, toLower: string -> string)
    returns (r: Option<string>)
    ensures r.Some? ==> r.value in knownClusters && Bounded(lower, toLower(r.value))
    ensures r.Some? ==> forall n <- knownClusters :: Bounded(lower, toLower(n)) ==> |n| <= |r.value|
    ensures r.None? ==> forall n <- knownClusters :: !Bounded(lower, toLower(n))
  {
    hide Bounded;
    var names := SortByLength(knownClusters);
    assert forall n :: n in knownClusters <==> n in multiset(knownClusters);
    for i := 0 to |names|
      invariant forall k :: 0 <= k < i ==> !Bounded(lower, toLower(names[k]))
    {
      var found := ContainsWord(lower, toLower(names[i]));
      if found {
        assert names[i] in multiset(names);
        forall n | n in knownClusters && Bounded(lower, toLower(n)) ensures |n| <= |names[i]| {
          assert n in names;
          var k :| 0 <= k < |names| && names[k] == n;
        }
        return Some(names[i]);
      }
    }
    forall n | n in knownClusters ensures !Bounded(lower, toLower(n)) { assert n in names; }
    return None;
  }
}
