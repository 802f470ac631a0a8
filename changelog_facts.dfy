/**
 * What the changelog loop of `get_urgent_update_info` computes, restated
 * over the headers the shared line iterator pulls: the loop is a filter over
 * those headers, cut off at the first one that mentions the installed version.
 */
module ChangelogFacts {
  import opened Wrappers
  import opened RustText
  import opened Ubuntu

  /**
   * The indices of the lines the loop pulls as headers from index `i` on, if
   * it never stopped early: each header is followed by its body and by the
   * one line `take_while` consumed and dropped.
   */
  function Pulled(lines: seq<string>, name: string, i: nat): (hs: seq<nat>)
    requires i <= |lines|
    ensures forall k :: 0 <= k < |hs| ==> i <= hs[k] < |lines|
    ensures hs != [] <==> i < |lines|
    ensures hs != [] ==> hs[0] == i
    ensures forall k :: 0 <= k < |hs| - 1 ==> hs[k + 1] == NextHeader(lines, name, hs[k])
    ensures hs != [] ==> NextHeader(lines, name, hs[|hs| - 1]) == |lines|
    decreases |lines| - i
  {
    if i == |lines| then [] else [i] + Pulled(lines, name, NextHeader(lines, name, i))
  }

  /** The headers before the first one that mentions the installed version `cur`. */
  function UntilInstalled(lines: seq<string>, hs: seq<nat>, cur: string): (r: seq<nat>)
    requires forall k :: 0 <= k < |hs| ==> hs[k] < |lines|
    ensures |r| <= |hs| && r == hs[..|r|]
    ensures forall k :: 0 <= k < |r| ==> !Contains(lines[r[k]], cur)
    ensures |r| < |hs| ==> Contains(lines[hs[|r|]], cur)
    decreases |hs|
  {
    if hs == [] || Contains(lines[hs[0]], cur) then []
    else [hs[0]] + UntilInstalled(lines, hs[1..], cur)
  }

  /** The entry a single header gives: its own when it is urgent, none otherwise. */
  function EntryOf(lines: seq<string>, name: string, h: nat): seq<Changelog>
    requires h < |lines|
  {
    if IsUrgent(lines[h]) then [Changelog(lines[h], ContentAt(lines, name, h))] else []
  }

  /** One entry per urgent header of `hs`, in the order of `hs`: the header line and its content. */
  function Retained(lines: seq<string>, name: string, hs: seq<nat>): (r: seq<Changelog>)
    requires forall k :: 0 <= k < |hs| ==> hs[k] < |lines|
    ensures |r| <= |hs|
    ensures forall c :: c in r ==>
              exists h :: h in hs && IsUrgent(lines[h]) && c == Changelog(lines[h], ContentAt(lines, name, h))
    ensures forall h :: h in hs && IsUrgent(lines[h]) ==> Changelog(lines[h], ContentAt(lines, name, h)) in r
    decreases |hs|
  {
    if hs == [] then [] else EntryOf(lines, name, hs[0]) + Retained(lines, name, hs[1..])
  }

  /** A header in front gives its own entry in front of the others'. */
  lemma RetainedCons(lines: seq<string>, name: string, h: nat, hs: seq<nat>)
    requires h < |lines|
    requires forall k :: 0 <= k < |hs| ==> hs[k] < |lines|
    ensures Retained(lines, name, [h] + hs) == EntryOf(lines, name, h) + Retained(lines, name, hs)
  {
  }

  /** A single header gives its entry when it is urgent and nothing otherwise. */
  lemma RetainedOne(lines: seq<string>, name: string, h: nat)
    requires h < |lines|
    ensures IsUrgent(lines[h]) ==> Retained(lines, name, [h]) == [Changelog(lines[h], ContentAt(lines, name, h))]
    ensures !IsUrgent(lines[h]) ==> Retained(lines, name, [h]) == []
  {
  }

  /**
   * Retaining distributes over concatenation: the entries of `hs1 + hs2` are
   * those of `hs1` followed by those of `hs2`. With `RetainedOne` this fixes
   * both the order of the entries and that each header gives at most one.
   */
  lemma {:induction false} RetainedAppend(lines: seq<string>, name: string, hs1: seq<nat>, hs2: seq<nat>)
    requires forall k :: 0 <= k < |hs1| ==> hs1[k] < |lines|
    requires forall k :: 0 <= k < |hs2| ==> hs2[k] < |lines|
    ensures Retained(lines, name, hs1 + hs2) == Retained(lines, name, hs1) + Retained(lines, name, hs2)
    decreases |hs1|
  {
    if hs1 == [] {
      assert hs1 + hs2 == hs2;
    } else {
      var t := hs1[1..];
      assert hs1 == [hs1[0]] + t;
      assert hs1 + hs2 == [hs1[0]] + (t + hs2);
      RetainedAppend(lines, name, t, hs2);
      RetainedCons(lines, name, hs1[0], t + hs2);
      RetainedCons(lines, name, hs1[0], t);
      ConcatAssoc(EntryOf(lines, name, hs1[0]), Retained(lines, name, t), Retained(lines, name, hs2));
    }
  }

  /** Concatenation is associative. */
  lemma ConcatAssoc<T>(a: seq<T>, b: seq<T>, c: seq<T>)
    ensures a + (b + c) == (a + b) + c
  {
  }

  /** The loop keeps exactly the urgent headers among those pulled before the installed version's. */
  lemma {:induction false} ScanIsRetainedBeforeInstalled(lines: seq<string>, name: string, cur: string, i: nat)
    requires i <= |lines|
    ensures ScanFrom(lines, name, cur, i) == Retained(lines, name, UntilInstalled(lines, Pulled(lines, name, i), cur))
    decreases |lines| - i
  {
    if i < |lines| {
      var next := NextHeader(lines, name, i);
      var hs := Pulled(lines, name, i);
      assert hs == [i] + Pulled(lines, name, next);
      assert hs[1..] == Pulled(lines, name, next);
      if !Contains(lines[i], cur) {
        var u := UntilInstalled(lines, hs, cur);
        assert u == [i] + UntilInstalled(lines, Pulled(lines, name, next), cur);
        assert u[1..] == UntilInstalled(lines, Pulled(lines, name, next), cur);
        ScanIsRetainedBeforeInstalled(lines, name, cur, next);
      }
    }
  }

  /** Pulled headers come in increasing order. */
  lemma {:induction false} PulledIncreasing(lines: seq<string>, name: string, i: nat, k1: nat, k2: nat)
    requires i <= |lines|
    requires k1 < k2 < |Pulled(lines, name, i)|
    ensures NextHeader(lines, name, Pulled(lines, name, i)[k1]) <= Pulled(lines, name, i)[k2]
    decreases k2 - k1
  {
    var hs := Pulled(lines, name, i);
    if k1 + 1 < k2 {
      PulledIncreasing(lines, name, i, k1 + 1, k2);
    }
  }

  /**
   * The line that stops a header's `take_while` is consumed: it is neither a
   * later header nor a body line of any header.
   */
  lemma ConsumedLineDiscarded(lines: seq<string>, name: string, k: nat)
    requires k < |Pulled(lines, name, 0)|
    requires BodyEnd(lines, name, Pulled(lines, name, 0)[k]) < |lines|
    ensures !StartsWith(lines[BodyEnd(lines, name, Pulled(lines, name, 0)[k])], name)
    ensures BodyEnd(lines, name, Pulled(lines, name, 0)[k]) !in Pulled(lines, name, 0)
    ensures forall k' :: 0 <= k' < |Pulled(lines, name, 0)| ==>
              var h := Pulled(lines, name, 0)[k'];
              !(h < BodyEnd(lines, name, Pulled(lines, name, 0)[k]) < BodyEnd(lines, name, h))
  {
    var hs := Pulled(lines, name, 0);
    var e := BodyEnd(lines, name, hs[k]);
    assert NextHeader(lines, name, hs[k]) == e + 1;
    forall k' | 0 <= k' < |hs|
      ensures hs[k'] != e
      ensures !(hs[k'] < e < BodyEnd(lines, name, hs[k']))
    {
      if k' < k {
        PulledIncreasing(lines, name, 0, k', k);
      } else if k < k' {
        PulledIncreasing(lines, name, 0, k, k');
      }
    }
  }

  /** Two texts that agree up to line `h` give a header before `h`, whose body ends before `h`, the same body and successor. */
  lemma BodyAgrees(lines: seq<string>, other: seq<string>, name: string, i: nat, h: nat)
    requires i < h < |lines| && h < |other|
    requires forall j :: 0 <= j <= h ==> other[j] == lines[j]
    requires BodyEnd(lines, name, i) < h
    ensures BodyEnd(other, name, i) == BodyEnd(lines, name, i)
    ensures NextHeader(other, name, i) == NextHeader(lines, name, i)
    ensures ContentAt(other, name, i) == ContentAt(lines, name, i)
  {
    var e := BodyEnd(lines, name, i);
    SkipWhileAt(other, l => StartsWith(l, name), i + 1, e);
    assert other[i + 1..e] == lines[i + 1..e];
  }

  /** Following the pulled headers from `i`, the loop reads no line after the header `h` that stops it. */
  lemma {:induction false} ScanIgnoresLinesAfter(lines: seq<string>, other: seq<string>, name: string, cur: string, h: nat, i: nat)
    requires h < |lines| && h < |other|
    requires forall j :: 0 <= j <= h ==> other[j] == lines[j]
    requires i <= |lines| && i <= |other|
    requires h in Pulled(lines, name, i) && Contains(lines[h], cur)
    ensures ScanFrom(other, name, cur, i) == ScanFrom(lines, name, cur, i)
    decreases |lines| - i
  {
    if i < h && !Contains(lines[i], cur) {
      var next := NextHeader(lines, name, i);
      assert Pulled(lines, name, i) == [i] + Pulled(lines, name, next);
      assert h in Pulled(lines, name, next);
      BodyAgrees(lines, other, name, i, h);
      ScanIgnoresLinesAfter(lines, other, name, cur, h, next);
    }
  }

  /**
   * Once a pulled header mentions the installed version, no later line
   * contributes: any text that agrees up to that header gives the same entries.
   */
  lemma ScanStopsAtInstalled(lines: seq<string>, other: seq<string>, name: string, cur: string, h: nat)
    requires h < |lines| && h in Pulled(lines, name, 0) && Contains(lines[h], cur)
    requires h < |other| && other[..h + 1] == lines[..h + 1]
    ensures ScanFrom(other, name, cur, 0) == ScanFrom(lines, name, cur, 0)
  {
    assert forall j :: 0 <= j <= h ==> other[j] == other[..h + 1][j] == lines[..h + 1][j] == lines[j];
    ScanIgnoresLinesAfter(lines, other, name, cur, h, 0);
  }

  /** A header pulled before the stop is kept, with its content, exactly when it is urgent. */
  lemma RetainedIffUrgent(lines: seq<string>, name: string, cur: string, h: nat)
    requires h < |lines| && h in UntilInstalled(lines, Pulled(lines, name, 0), cur)
    ensures Changelog(lines[h], ContentAt(lines, name, h)) in ScanFrom(lines, name, cur, 0) <==> IsUrgent(lines[h])
  {
    ScanIsRetainedBeforeInstalled(lines, name, cur, 0);
  }

  /**
   * Every kept entry is an urgent header pulled before the stop, copied
   * verbatim as `version`, with the `\n`-join of its body as `content`.
   */
  lemma EntriesComeFromUrgentHeaders(lines: seq<string>, name: string, cur: string, c: Changelog)
    requires c in ScanFrom(lines, name, cur, 0)
    ensures exists h :: h in UntilInstalled(lines, Pulled(lines, name, 0), cur) && h < |lines|
                        && IsUrgent(lines[h]) && !Contains(lines[h], cur)
                        && c == Changelog(lines[h], ContentAt(lines, name, h))
  {
    ScanIsRetainedBeforeInstalled(lines, name, cur, 0);
    var u := UntilInstalled(lines, Pulled(lines, name, 0), cur);
    var h :| h in u && IsUrgent(lines[h]) && c == Changelog(lines[h], ContentAt(lines, name, h));
  }

  /** Nothing is retained exactly when no header is urgent. */
  lemma RetainedEmptyIff(lines: seq<string>, name: string, hs: seq<nat>)
    requires forall k :: 0 <= k < |hs| ==> hs[k] < |lines|
    ensures Retained(lines, name, hs) == [] <==> forall k :: 0 <= k < |hs| ==> !IsUrgent(lines[hs[k]])
  {
  }

  /**
   * No entry is kept, and `get_urgent_update_info` answers `None`, exactly
   * when no header pulled before the stop is urgent.
   */
  lemma NoneIffNoUrgentHeader(lines: seq<string>, pkg: PkgInfo)
    ensures Scan(lines, pkg) == [] <==>
              forall k :: 0 <= k < |UntilInstalled(lines, Pulled(lines, pkg.name, 0), pkg.currentVersion)| ==>
                !IsUrgent(lines[UntilInstalled(lines, Pulled(lines, pkg.name, 0), pkg.currentVersion)[k]])
  {
    ScanIsRetainedBeforeInstalled(lines, pkg.name, pkg.currentVersion, 0);
    RetainedEmptyIff(lines, pkg.name, UntilInstalled(lines, Pulled(lines, pkg.name, 0), pkg.currentVersion));
  }

  /**
   * Two headers newer than the installed version, the first urgent and the
   * second not: only the first is kept, with its one body line as content.
   * The line after the second header is consumed by `take_while`, so it ends
   * the scan without being read as a header, even if it names the installed
   * version.
   */
  lemma UrgentKeptOtherDropped(name: string, cur: string, high: string, body: string, stop: string, low: string, last: string)
    requires IsUrgent(high) && !IsUrgent(low)
    requires !Contains(high, cur) && !Contains(low, cur)
    requires StartsWith(body, name) && !StartsWith(stop, name) && !StartsWith(last, name)
    ensures ScanFrom([high, body, stop, low, last], name, cur, 0) == [Changelog(high, body)]
  {
    var lines := [high, body, stop, low, last];
    SkipWhileAt(lines, l => StartsWith(l, name), 1, 2);
    SkipWhileAt(lines, l => StartsWith(l, name), 4, 4);
    assert lines[1..2] == [body];
    assert ContentAt(lines, name, 0) == body;
    assert ScanFrom(lines, name, cur, 3) == [];
  }

  /** When the newest header already names the installed version, nothing is kept, whatever follows. */
  lemma InstalledNewestKeepsNothing(lines: seq<string>, pkg: PkgInfo)
    requires lines != [] && Contains(lines[0], pkg.currentVersion)
    ensures Scan(lines, pkg) == []
  {
  }
}
