/**
 * Java's `String.split("\t")`: the string is cut at every tab, and when at
 * least one tab was found the trailing empty fields are removed. When no tab
 * is found the whole string is the only field (so `"".split("\t")` is `[""]`).
 * Interior and leading empty fields are kept.
 */
module JavaString {

  const TAB: char := '\t'

  /** Number of tabs in `s`. */
  function TabCount(s: string): nat
  {
    if s == [] then 0 else (if s[0] == TAB then 1 else 0) + TabCount(s[1..])
  }

  /** `k` tab characters. */
  function Tabs(k: nat): string
  {
    seq(k, _ => TAB)
  }

  /** `k` empty fields. */
  function Empties(k: nat): seq<string>
  {
    seq(k, _ => "")
  }

  /** True when no field holds a tab. */
  predicate TabFree(fs: seq<string>)
  {
    forall i :: 0 <= i < |fs| ==> TAB !in fs[i]
  }

  /** Every field between tabs, empty ones included. */
  function SplitAll(s: string): (fs: seq<string>)
    ensures |fs| == TabCount(s) + 1
    ensures TabFree(fs)
  {
    if s == [] then [""]
    else
      var rest := SplitAll(s[1..]);
      if s[0] == TAB then [""] + rest
      else [[s[0]] + rest[0]] + rest[1..]
  }

  /** The fields separated by single tabs, the inverse of `SplitAll`. */
  function JoinTab(fs: seq<string>): string
  {
    if fs == [] then ""
    else if |fs| == 1 then fs[0]
    else fs[0] + [TAB] + JoinTab(fs[1..])
  }

  /** Removes the empty fields at the end of `fs`. */
  function StripTrailingEmpty(fs: seq<string>): (r: seq<string>)
    ensures r <= fs
    ensures r == [] || r[|r| - 1] != ""
    ensures forall i :: |r| <= i < |fs| ==> fs[i] == ""
  {
    if fs == [] then []
    else if fs[|fs| - 1] == "" then StripTrailingEmpty(fs[..|fs| - 1])
    else fs
  }

  /** `s.split("\t")` in Java. */
  function SplitTab(s: string): (fs: seq<string>)
    ensures TabFree(fs)
    ensures TAB !in s ==> fs == [s]
    ensures TAB in s ==> fs == [] || fs[|fs| - 1] != ""
  {
    if TAB !in s then [s] else StripTrailingEmpty(SplitAll(s))
  }

  lemma {:induction false} JoinTabSnoc(fs: seq<string>, x: string)
    requires |fs| >= 1
    ensures JoinTab(fs + [x]) == JoinTab(fs) + [TAB] + x
  {
    if |fs| > 1 {
      assert (fs + [x])[1..] == fs[1..] + [x];
      JoinTabSnoc(fs[1..], x);
    }
  }

  /** Appending `k` empty fields appends `k` tabs. */
  lemma {:induction false} JoinTrailingEmpties(fs: seq<string>, k: nat)
    requires |fs| >= 1
    ensures JoinTab(fs + Empties(k)) == JoinTab(fs) + Tabs(k)
  {
    if k == 0 {
      assert fs + Empties(0) == fs;
      assert JoinTab(fs) + Tabs(0) == JoinTab(fs);
    } else {
      JoinTrailingEmpties(fs, k - 1);
      assert fs + Empties(k) == (fs + Empties(k - 1)) + [""];
      JoinTabSnoc(fs + Empties(k - 1), "");
      assert Tabs(k) == Tabs(k - 1) + [TAB];
    }
  }

  /** Joining the fields of `SplitAll` gives back the string. */
  lemma {:induction false} SplitAllJoin(s: string)
    ensures JoinTab(SplitAll(s)) == s
  {
    if s != [] {
      var rest := SplitAll(s[1..]);
      SplitAllJoin(s[1..]);
      if s[0] == TAB {
        assert ([""] + rest)[1..] == rest;
      } else {
        var fs := [[s[0]] + rest[0]] + rest[1..];
        assert fs[1..] == rest[1..];
        assert s == [s[0]] + s[1..];
      }
    }
  }

  /** A tab-free prefix ends up at the front of the first field. */
  lemma {:induction false} SplitAllTabFreePrefix(x: string, y: string)
    requires TAB !in x
    ensures SplitAll(x + y) == [x + SplitAll(y)[0]] + SplitAll(y)[1..]
  {
    if x == [] {
      assert x + y == y;
      assert x + SplitAll(y)[0] == SplitAll(y)[0];
      assert [x + SplitAll(y)[0]] + SplitAll(y)[1..] == SplitAll(y);
    } else {
      assert (x + y)[1..] == x[1..] + y;
      assert (x + y)[0] == x[0];
      SplitAllTabFreePrefix(x[1..], y);
      assert [x[0]] + (x[1..] + SplitAll(y)[0]) == x + SplitAll(y)[0];
    }
  }

  /** `SplitAll` undoes `JoinTab` on tab-free fields. */
  lemma {:induction false} JoinSplitAll(fs: seq<string>)
    requires |fs| >= 1 && TabFree(fs)
    ensures SplitAll(JoinTab(fs)) == fs
  {
    if |fs| == 1 {
      SplitAllTabFreePrefix(fs[0], "");
      assert fs[0] + "" == fs[0];
    } else {
      var j := JoinTab(fs[1..]);
      assert TabFree(fs[1..]) by {
        forall i | 0 <= i < |fs[1..]| ensures TAB !in fs[1..][i] {
          assert fs[1..][i] == fs[i + 1];
          assert TAB !in fs[i + 1];
        }
      }
      JoinSplitAll(fs[1..]);
      assert TAB !in fs[0];
      assert JoinTab(fs) == fs[0] + ([TAB] + j);
      SplitAllTabFreePrefix(fs[0], [TAB] + j);
      assert ([TAB] + j)[1..] == j;
      assert SplitAll([TAB] + j) == [""] + fs[1..];
      assert fs[0] + "" == fs[0];
    }
  }

  /** A tab-free string is one field. */
  lemma SplitAllTabFree(s: string)
    requires TAB !in s
    ensures SplitAll(s) == [s]
  {
    SplitAllTabFreePrefix(s, "");
    assert s + "" == s;
  }

  /**
   * Every string is its split fields joined by tabs and followed by the tabs
   * of the trailing empty fields that were dropped.
   */
  lemma SplitTabJoin(s: string)
    ensures exists k: nat :: s == JoinTab(SplitTab(s)) + Tabs(k)
  {
    if TAB !in s {
      assert s == JoinTab(SplitTab(s)) + Tabs(0);
    } else {
      SplitAllJoin(s);
      var k := JoinStripped(SplitAll(s));
      assert s == JoinTab(SplitTab(s)) + Tabs(k);
    }
  }

  /** Joining fields equals joining them without their trailing empty fields, then `k` tabs. */
  lemma JoinStripped(all: seq<string>) returns (k: nat)
    requires |all| >= 1
    ensures JoinTab(all) == JoinTab(StripTrailingEmpty(all)) + Tabs(k)
  {
    var fs := StripTrailingEmpty(all);
    StripLeavesEmpties(all);
    var n := |all| - |fs|;
    if fs == [] {
      assert all == [""] + Empties(n - 1);
      JoinTrailingEmpties([""], n - 1);
      k := n - 1;
    } else {
      JoinTrailingEmpties(fs, n);
      k := n;
    }
  }

  lemma StripLeavesEmpties(fs: seq<string>)
    ensures fs == StripTrailingEmpty(fs) + Empties(|fs| - |StripTrailingEmpty(fs)|)
  {
    var r := StripTrailingEmpty(fs);
    var e := Empties(|fs| - |r|);
    assert |r + e| == |fs|;
    forall i | 0 <= i < |fs| ensures (r + e)[i] == fs[i] {
      if i >= |r| { assert (r + e)[i] == e[i - |r|] == ""; }
    }
  }

  /**
   * Splitting tab-free fields joined by tabs, followed by any number of
   * trailing tabs, gives the fields back when the last one is not empty.
   */
  lemma SplitTabOfJoin(fs: seq<string>, k: nat)
    requires |fs| >= 1 && TabFree(fs) && fs[|fs| - 1] != ""
    ensures SplitTab(JoinTab(fs) + Tabs(k)) == fs
  {
    var s := JoinTab(fs) + Tabs(k);
    var padded := fs + Empties(k);
    JoinTrailingEmpties(fs, k);
    assert TabFree(padded) by {
      forall i | 0 <= i < |padded| ensures TAB !in padded[i] {
        if i >= |fs| { assert padded[i] == ""; }
      }
    }
    JoinSplitAll(padded);
    assert SplitAll(s) == padded;
    if TAB !in s {
      SplitAllTabFree(s);
      assert |padded| == 1;
    } else {
      StripPadded(fs, k);
    }
  }

  /** Stripping removes exactly the empty fields appended after a non-empty last field. */
  lemma {:induction false} StripPadded(fs: seq<string>, k: nat)
    requires |fs| >= 1 && fs[|fs| - 1] != ""
    ensures StripTrailingEmpty(fs + Empties(k)) == fs
  {
    if k == 0 {
      assert fs + Empties(0) == fs;
    } else {
      var padded := fs + Empties(k);
      assert padded[|padded| - 1] == "";
      assert padded[..|padded| - 1] == fs + Empties(k - 1);
      StripPadded(fs, k - 1);
    }
  }

  /** A trailing tab is dropped. */
  lemma SplitTabDropsTrailingTab(s: string)
    requires s == "A\tB\t5\t"
    ensures SplitTab(s) == ["A", "B", "5"]
  {
    assert TabFree(["A", "B", "5"]);
    assert s == JoinTab(["A", "B", "5"]) + Tabs(1);
    SplitTabOfJoin(["A", "B", "5"], 1);
  }

  /** Two fields and a trailing tab are two fields. */
  lemma SplitTabTwoFields(s: string)
    requires s == "A\tB\t"
    ensures SplitTab(s) == ["A", "B"]
  {
    assert TabFree(["A", "B"]);
    assert s == JoinTab(["A", "B"]) + Tabs(1);
    SplitTabOfJoin(["A", "B"], 1);
  }

  /** An empty field between two tabs is kept. */
  lemma SplitTabKeepsInteriorEmpty(s: string)
    requires s == "A\t\t5"
    ensures SplitTab(s) == ["A", "", "5"]
  {
    assert TabFree(["A", "", "5"]);
    assert s == JoinTab(["A", "", "5"]) + Tabs(0);
    SplitTabOfJoin(["A", "", "5"], 0);
  }

  /** A leading empty field is kept. */
  lemma SplitTabKeepsLeadingEmpty(s: string)
    requires s == "\tB\t5"
    ensures SplitTab(s) == ["", "B", "5"]
  {
    assert TabFree(["", "B", "5"]);
    assert s == JoinTab(["", "B", "5"]) + Tabs(0);
    SplitTabOfJoin(["", "B", "5"], 0);
  }

  /** A string of one or more tabs has no field at all, while the empty string is one empty field. */
  lemma SplitTabOnlyTabs(k: nat)
    requires k >= 1
    ensures SplitTab(Tabs(k)) == []
    ensures SplitTab("") == [""]
  {
    assert Tabs(k)[0] == TAB;
    SplitAllTabs(k);
    StripEmpties(k + 1);
  }

  /** Cutting `k` tabs gives `k + 1` empty fields. */
  lemma {:induction false} SplitAllTabs(k: nat)
    ensures SplitAll(Tabs(k)) == Empties(k + 1)
  {
    if k > 0 {
      assert Tabs(k)[1..] == Tabs(k - 1);
      SplitAllTabs(k - 1);
      assert [""] + Empties(k) == Empties(k + 1);
    }
  }

  /** Only empty fields strip to nothing. */
  lemma {:induction false} StripEmpties(n: nat)
    ensures StripTrailingEmpty(Empties(n)) == []
  {
    if n > 0 {
      assert Empties(n)[..n - 1] == Empties(n - 1);
      StripEmpties(n - 1);
    }
  }
}
