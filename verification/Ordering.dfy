/** Lexicographic order on names, listings of finite sets of names newest first, and the
    zero-padded UTC file names whose order is chronological. */
module Ordering {
  import opened Text
  import opened Inspect

  // ---- string order ----

  predicate Less(a: string, b: string) {
    b != "" && (a == "" || a[0] < b[0] || (a[0] == b[0] && Less(a[1..], b[1..])))
  }

  lemma {:induction false} LessIrreflexive(a: string)
    ensures !Less(a, a)
  {
    if a != "" { LessIrreflexive(a[1..]); }
  }

  lemma {:induction false} LessTransitive(a: string, b: string, c: string)
    requires Less(a, b) && Less(b, c)
    ensures Less(a, c)
  {
    if a != "" && a[0] == b[0] == c[0] { LessTransitive(a[1..], b[1..], c[1..]); }
  }

  lemma {:induction false} LessTotal(a: string, b: string)
    ensures Less(a, b) || a == b || Less(b, a)
  {
    if a != "" && b != "" && a[0] == b[0] {
      LessTotal(a[1..], b[1..]);
      assert a == [a[0]] + a[1..] && b == [b[0]] + b[1..];
    }
  }

  lemma {:induction false} LessConcat(a: string, b: string, x: string, y: string)
    requires |a| == |b|
    ensures Less(a + x, b + y) <==> Less(a, b) || (a == b && Less(x, y))
  {
    if a == "" {
      assert a + x == x && b + y == y;
    } else {
      assert (a + x)[1..] == a[1..] + x && (b + y)[1..] == b[1..] + y;
      LessConcat(a[1..], b[1..], x, y);
      assert a == [a[0]] + a[1..] && b == [b[0]] + b[1..];
    }
  }

  // ---- listings ----

  predicate Descending(names: seq<string>) {
    forall i, j :: 0 <= i < j < |names| ==> Less(names[j], names[i])
  }

  ghost function Greater(n: string, s: set<string>): set<string> {
    set m | m in s && Less(n, m)
  }

  ghost function Greatest(s: set<string>): (m: string)
    requires s != {}
    ensures m in s && forall n <- s :: n == m || Less(n, m)
  {
    var x :| x in s;
    if s == {x} then x
    else
      var rest := s - {x};
      var m := Greatest(rest);
      assert forall n <- s :: n == x || n in rest;
      if Less(m, x) then
        assert forall n <- rest :: Less(n, x) by {
          forall n | n in rest ensures Less(n, x) { if n != m { LessTransitive(n, m, x); } }
        }
        x
      else
        LessTotal(m, x);
        m
  }

  /** The members of a finite set of names, greatest first. */
  ghost function Listing(s: set<string>): (names: seq<string>)
    ensures Descending(names)
    ensures forall n :: n in names <==> n in s
  {
    if s == {} then []
    else
      var m := Greatest(s);
      var rest := Listing(s - {m});
      assert forall k :: 0 <= k < |rest| ==> rest[k] in rest && Less(rest[k], m);
      [m] + rest
  }

  lemma DescendingDistinct(names: seq<string>)
    requires Descending(names)
    ensures forall i, j :: 0 <= i < j < |names| ==> names[i] != names[j]
  {
    forall i, j | 0 <= i < j < |names| ensures names[i] != names[j] {
      LessIrreflexive(names[i]);
    }
  }

  lemma {:induction false} DistinctSize(names: seq<string>, s: set<string>)
    requires forall i, j :: 0 <= i < j < |names| ==> names[i] != names[j]
    requires forall n :: n in names <==> n in s
    ensures |s| == |names|
  {
    if names == [] {
      assert s == {};
    } else {
      var k := |names| - 1;
      assert names == names[..k] + [names[k]];
      DistinctSize(names[..k], s - {names[k]});
    }
  }

  /** In a listing, the number of greater names is the position. */
  lemma GreaterAt(names: seq<string>, s: set<string>, i: nat)
    requires Descending(names) && i < |names|
    requires forall n :: n in names <==> n in s
    ensures |Greater(names[i], s)| == i
  {
    DescendingDistinct(names);
    var g := Greater(names[i], s);
    forall n ensures n in names[..i] <==> n in g {
      if n in g {
        var k :| 0 <= k < |names| && names[k] == n;
        if k > i { LessTransitive(names[i], names[k], names[i]); }
        LessIrreflexive(names[i]);
        assert names[..i][k] == n;
      }
      if n in names[..i] {
        var k :| 0 <= k < i && names[k] == n;
        assert n in names;
      }
    }
    DistinctSize(names[..i], g);
  }

  /** A listing is determined by its members: any descending sequence of them is the one. */
  lemma ListingUnique(a: seq<string>, s: set<string>)
    requires Descending(a)
    requires forall n :: n in a <==> n in s
    ensures a == Listing(s)
  {
    var b := Listing(s);
    DescendingDistinct(a);
    DescendingDistinct(b);
    DistinctSize(a, s);
    DistinctSize(b, s);
    forall i | 0 <= i < |a| ensures a[i] == b[i] {
      GreaterAt(a, s, i);
      assert a[i] in a;
      var k :| 0 <= k < |b| && b[k] == a[i];
      GreaterAt(b, s, k);
    }
  }

  lemma ListingAt(n: string, s: set<string>)
    requires n in s
    ensures |Greater(n, s)| < |Listing(s)| && Listing(s)[|Greater(n, s)|] == n
  {
    var b := Listing(s);
    var k :| 0 <= k < |b| && b[k] == n;
    GreaterAt(b, s, k);
  }

  lemma {:induction false} SubsetSize<T>(a: set<T>, b: set<T>)
    requires a <= b
    ensures |a| <= |b|
  {
    if a != {} {
      var x :| x in a;
      SubsetSize(a - {x}, b - {x});
    }
  }

  /** Names with fewer than `keep` greater ones: the `keep` greatest. */
  ghost function Top(s: set<string>, keep: nat): set<string> {
    set n | n in s && |Greater(n, s)| < keep
  }

  /** Everything outside the top has `keep` greater names inside it. */
  lemma BelowTop(s: set<string>, keep: nat, m: string)
    requires m in s && m !in Top(s, keep)
    ensures |Greater(m, Top(s, keep))| >= keep
  {
    hide Listing, Less;
    var names := Listing(s);
    ListingAt(m, s);
    var j := |Greater(m, s)|;
    DescendingDistinct(names);
    var first := set n | n in names[..keep];
    DistinctSize(names[..keep], first);
    forall n | n in first ensures n in Greater(m, Top(s, keep)) {
      var k :| 0 <= k < keep && names[k] == n;
      GreaterAt(names, s, k);
      assert n in names;
    }
    SubsetSize(first, Greater(m, Top(s, keep)));
  }

  /** Keeping the greatest before or after adding a name makes no difference. */
  lemma TopAfterTop(s: set<string>, keep: nat, x: string)
    ensures Top(Top(s, keep) + {x}, keep) == Top(s + {x}, keep)
  {
    var t := Top(s, keep);
    forall n ensures n in Top(t + {x}, keep) <==> n in Top(s + {x}, keep) {
      if n in Top(t + {x}, keep) {
        if m :| m in Greater(n, s + {x}) && m !in t + {x} {
          BelowTop(s, keep, m);
          forall y | y in Greater(m, t) ensures y in Greater(n, t + {x}) { LessTransitive(n, m, y); }
          SubsetSize(Greater(m, t), Greater(n, t + {x}));
        }
        assert Greater(n, s + {x}) <= Greater(n, t + {x});
        SubsetSize(Greater(n, s + {x}), Greater(n, t + {x}));
      }
      if n in Top(s + {x}, keep) {
        SubsetSize(Greater(n, s), Greater(n, s + {x}));
        SubsetSize(Greater(n, t + {x}), Greater(n, s + {x}));
      }
    }
  }

  // ---- file names ----

  /** A number zero-padded to at least `w` digits. */
  function Pad(n: nat, w: nat): (s: string)
    requires w >= 1
    ensures AllDigits(s)
  {
    if w == 1 then Digits(n) else Pad(n / 10, w - 1) + [DigitChar(n % 10)]
  }

  /** `StartedAt.UTC().Format("20060102-150405") + ".json"`. */
  function FileName(t: Instant): string {
    Pad(t.year, 4) + Pad(t.month, 2) + Pad(t.day, 2) + "-"
    + Pad(t.hour, 2) + Pad(t.minute, 2) + Pad(t.second, 2) + ".json"
  }

  predicate FourDigitYear(t: Instant) {
    t.year <= 9999 && 1 <= t.month <= 12 && 1 <= t.day <= 31 && t.hour <= 23 && t.minute <= 59 && t.second <= 60
  }

  /** Earlier by at least one whole second on the calendar. */
  predicate EarlierSecond(t: Instant, u: Instant) {
    || t.year < u.year
    || (t.year == u.year && (
        || t.month < u.month
        || (t.month == u.month && (
            || t.day < u.day
            || (t.day == u.day && (
                || t.hour < u.hour
                || (t.hour == u.hour && (
                    || t.minute < u.minute
                    || (t.minute == u.minute && t.second < u.second)))))))))
  }

  predicate SameSecond(t: Instant, u: Instant) {
    t.year == u.year && t.month == u.month && t.day == u.day
    && t.hour == u.hour && t.minute == u.minute && t.second == u.second
  }

  function Pow10(w: nat): nat {
    if w == 0 then 1 else 10 * Pow10(w - 1)
  }

  lemma {:induction false} PadOrder(n: nat, m: nat, w: nat)
    requires w >= 1 && n < Pow10(w) && m < Pow10(w)
    ensures |Pad(n, w)| == |Pad(m, w)| == w
    ensures Less(Pad(n, w), Pad(m, w)) <==> n < m
    ensures Pad(n, w) == Pad(m, w) <==> n == m
  {
    if w == 1 {
      assert Pow10(1) == 10 * Pow10(0) == 10;
      assert [DigitChar(n)][1..] == [] && [DigitChar(m)][1..] == [];
    } else {
      PadOrder(n / 10, m / 10, w - 1);
      var x, y := [DigitChar(n % 10)], [DigitChar(m % 10)];
      assert x[1..] == [] && y[1..] == [];
      LessConcat(Pad(n / 10, w - 1), Pad(m / 10, w - 1), x, y);
      assert Less(x, y) <==> n % 10 < m % 10;
      assert Pad(n, w)[..w - 1] == Pad(n / 10, w - 1) && Pad(n, w)[w - 1] == x[0];
      assert Pad(m, w)[..w - 1] == Pad(m / 10, w - 1) && Pad(m, w)[w - 1] == y[0];
    }
  }

  lemma PadLess(n: nat, m: nat, w: nat, x: string, y: string)
    requires w >= 1 && n < Pow10(w) && m < Pow10(w)
    ensures Less(Pad(n, w) + x, Pad(m, w) + y) <==> n < m || (n == m && Less(x, y))
  {
    PadOrder(n, m, w);
    LessConcat(Pad(n, w), Pad(m, w), x, y);
  }

  lemma FileNameLess(t: Instant, u: Instant)
    requires FourDigitYear(t) && FourDigitYear(u)
    ensures Less(FileName(t), FileName(u)) <==> EarlierSecond(t, u)
  {
    hide Less, Pad;
    assert Pow10(2) == 100 && Pow10(4) == 10000 by {
      assert Pow10(1) == 10 * Pow10(0) && Pow10(2) == 10 * Pow10(1) && Pow10(3) == 10 * Pow10(2);
    }
    LessIrreflexive(".json");
    var t6, u6 := Pad(t.second, 2) + ".json", Pad(u.second, 2) + ".json";
    PadLess(t.second, u.second, 2, ".json", ".json");
    var t5, u5 := Pad(t.minute, 2) + t6, Pad(u.minute, 2) + u6;
    PadLess(t.minute, u.minute, 2, t6, u6);
    var t4, u4 := Pad(t.hour, 2) + t5, Pad(u.hour, 2) + u5;
    PadLess(t.hour, u.hour, 2, t5, u5);
    LessConcat("-", "-", t4, u4);
    LessIrreflexive("-");
    var t3, u3 := Pad(t.day, 2) + ("-" + t4), Pad(u.day, 2) + ("-" + u4);
    PadLess(t.day, u.day, 2, "-" + t4, "-" + u4);
    var t2, u2 := Pad(t.month, 2) + t3, Pad(u.month, 2) + u3;
    PadLess(t.month, u.month, 2, t3, u3);
    PadLess(t.year, u.year, 4, t2, u2);
    assert FileName(t) == Pad(t.year, 4) + t2 && FileName(u) == Pad(u.year, 4) + u2;
  }

  /** Main result: file names sort as their seconds do, and coincide for the same second. */
  lemma FileNameOrder(t: Instant, u: Instant)
    requires FourDigitYear(t) && FourDigitYear(u)
    ensures Less(FileName(t), FileName(u)) <==> EarlierSecond(t, u)
    ensures FileName(t) == FileName(u) <==> SameSecond(t, u)
  {
    hide Less, FileName;
    FileNameLess(t, u);
    FileNameLess(u, t);
    LessIrreflexive(FileName(t));
    LessTotal(FileName(t), FileName(u));
  }

  lemma {:induction false} PadReadsBack(n: nat, w: nat)
    requires w >= 1 && n < Pow10(w)
    ensures |Pad(n, w)| == w && Atoi(Pad(n, w)) == Some(n)
  {
    hide Atoi;
    PadValue(n, w);
    ReadDigits(Pad(n, w));
  }

  lemma {:induction false} PadValue(n: nat, w: nat)
    requires w >= 1 && n < Pow10(w)
    ensures |Pad(n, w)| == w && DigitsValue(Pad(n, w)) == n
  {
    if w == 1 {
      assert Pow10(1) == 10 * Pow10(0) == 10;
      assert [DigitChar(n)][..0] == [];
    } else {
      PadValue(n / 10, w - 1);
      assert Pad(n, w)[..w - 1] == Pad(n / 10, w - 1);
    }
  }

  lemma ReadDigits(s: string)
    requires s != "" && AllDigits(s)
    ensures Atoi(s) == Some(DigitsValue(s))
  {
    assert IsDigit(s[0]);
  }

  /** A file name is a calendar second that reads back: year, month and day, a dash, hour, minute
      and second, and the extension. */
  lemma FileNameReadsBack(t: Instant)
    requires FourDigitYear(t)
    ensures var s := FileName(t);
      && |s| == 20 && s[8] == '-' && s[15..] == ".json"
      && Atoi(s[..4]) == Some(t.year) && Atoi(s[4..6]) == Some(t.month) && Atoi(s[6..8]) == Some(t.day)
      && Atoi(s[9..11]) == Some(t.hour) && Atoi(s[11..13]) == Some(t.minute) && Atoi(s[13..15]) == Some(t.second)
  {
    hide Pad, Atoi;
    assert Pow10(2) == 100 && Pow10(4) == 10000 by {
      assert Pow10(1) == 10 * Pow10(0) && Pow10(2) == 10 * Pow10(1) && Pow10(3) == 10 * Pow10(2);
    }
    PadReadsBack(t.year, 4);
    PadReadsBack(t.month, 2);
    PadReadsBack(t.day, 2);
    PadReadsBack(t.hour, 2);
    PadReadsBack(t.minute, 2);
    PadReadsBack(t.second, 2);
    var s := FileName(t);
    assert s[..4] == Pad(t.year, 4) && s[4..6] == Pad(t.month, 2) && s[6..8] == Pad(t.day, 2);
    assert s[9..11] == Pad(t.hour, 2) && s[11..13] == Pad(t.minute, 2) && s[13..15] == Pad(t.second, 2);
  }
}
