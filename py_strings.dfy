/** The Python `str` operations that the signature code relies on
    (`startswith`, `endswith`, `find`, `replace`), over `seq<char>`. */
module PyStrings {

  /** `s.startswith(p)`: `s` has at least the characters of `p`, and they match. */
  predicate StartsWith(s: string, p: string)
    ensures StartsWith(s, p) <==> |p| <= |s| && forall i :: 0 <= i < |p| ==> s[i] == p[i]
  {
    |p| <= |s| && s[..|p|] == p
  }

  /** `s.endswith(p)`: the last `|p|` characters of `s` match those of `p`. */
  predicate EndsWith(s: string, p: string)
    ensures EndsWith(s, p) <==> |p| <= |s| && forall i :: 0 <= i < |p| ==> s[|s| - |p| + i] == p[i]
  {
    |p| <= |s| && s[|s| - |p|..] == p
  }

  /** `p` occurs in `s` starting at index `k`. */
  predicate OccursAt(s: string, p: string, k: int) {
    0 <= k && k + |p| <= |s| && s[k..k + |p|] == p
  }

  /** The search loop behind `s.find(p)`, started at index `k`. */
  function FindFrom(s: string, p: string, k: nat): (r: int)
    decreases |s| - k
    ensures r == -1 || (k <= r && OccursAt(s, p, r))
    ensures forall j :: k <= j && (r < 0 || j < r) ==> !OccursAt(s, p, j)
  {
    if |s| < k + |p| then -1
    else if OccursAt(s, p, k) then k
    else FindFrom(s, p, k + 1)
  }

  /** `s.find(p)`: the index of the first occurrence of `p`, or -1 when there is none. */
  function Find(s: string, p: string): (r: int)
    ensures -1 <= r
    ensures 0 <= r ==> OccursAt(s, p, r)
    ensures forall k :: 0 <= k && (r < 0 || k < r) ==> !OccursAt(s, p, k)
  {
    FindFrom(s, p, 0)
  }

  /** `s.replace(pat, rep)` for a non-empty `pat`: every occurrence, scanning left
      to right and never overlapping, is replaced by `rep`. */
  function Replace(s: string, pat: string, rep: string): (r: string)
    requires |pat| > 0
    decreases |s|
    ensures |rep| == |pat| ==> |r| == |s|
    ensures |rep| >= |pat| ==> |r| >= |s|
    ensures |rep| <= |pat| ==> |r| <= |s|
  {
    if |s| == 0 then ""
    else if StartsWith(s, pat) then rep + Replace(s[|pat|..], pat, rep)
    else [s[0]] + Replace(s[1..], pat, rep)
  }

  /** A string in which `pat` does not occur is left unchanged. */
  lemma {:induction false} ReplaceWithoutOccurrence(s: string, pat: string, rep: string)
    requires |pat| > 0
    requires forall k :: !OccursAt(s, pat, k)
    decreases |s|
    ensures Replace(s, pat, rep) == s
  {
    if |s| > 0 {
      assert !OccursAt(s, pat, 0);
      forall k | 0 <= k ensures !OccursAt(s[1..], pat, k) {
        OccursAtShift([s[0]], s[1..], pat, k + 1);
        assert [s[0]] + s[1..] == s;
      }
      ReplaceWithoutOccurrence(s[1..], pat, rep);
    }
  }

  /** An occurrence past the end of `a` in `a + b` is an occurrence in `b`. */
  lemma OccursAtShift(a: string, b: string, p: string, k: int)
    requires |a| <= k
    ensures OccursAt(a + b, p, k) <==> OccursAt(b, p, k - |a|)
  {
    if k + |p| <= |a + b| {
      assert (a + b)[k..k + |p|] == b[k - |a|..k - |a| + |p|];
    }
  }

  /** Whether `a + b` ends with a character `c` depends only on `b`, unless
      `b` is empty and `a` ends with `c`. */
  lemma EndsWithTail(a: string, b: string, c: char)
    requires |b| > 0 || (|a| > 0 && a[|a| - 1] != c) || |a| == 0
    ensures EndsWith(a + b, [c]) <==> EndsWith(b, [c])
  {
    if |b| > 0 {
      assert (a + b)[|a + b| - 1..] == b[|b| - 1..];
    } else {
      assert a + b == a;
    }
  }

  /** The first character of a replacement result. */
  lemma ReplaceHead(s: string, pat: string, rep: string)
    requires |pat| > 0 && |rep| > 0
    ensures |s| == 0 ==> Replace(s, pat, rep) == ""
    ensures |s| > 0 ==> (|Replace(s, pat, rep)| > 0 &&
                         Replace(s, pat, rep)[0] == if StartsWith(s, pat) then rep[0] else s[0])
  {
  }

  /** A final character that does not appear in `pat` is never part of a match,
      so it is carried over unchanged. */
  lemma {:induction false} ReplaceAppendChar(s: string, pat: string, rep: string, c: char)
    requires |pat| > 0 && c !in pat
    decreases |s|
    ensures Replace(s + [c], pat, rep) == Replace(s, pat, rep) + [c]
  {
    var t := s + [c];
    if StartsWith(t, pat) {
      assert c in t;
      assert |pat| == |t| ==> pat == t;
      assert s[..|pat|] == t[..|pat|];
      assert t[|pat|..] == s[|pat|..] + [c];
      ReplaceAppendChar(s[|pat|..], pat, rep, c);
    } else if |s| == 0 {
      assert t[1..] == [];
    } else {
      assert !StartsWith(s, pat) by {
        if |pat| <= |s| {
          assert t[..|pat|] == s[..|pat|];
        }
      }
      assert t[1..] == s[1..] + [c];
      ReplaceAppendChar(s[1..], pat, rep, c);
    }
  }

  /** Replacing `pat` keeps a last character that `pat` does not contain. */
  lemma ReplaceKeepsLastChar(s: string, pat: string, rep: string, c: char)
    requires |pat| > 0 && c !in pat
    requires EndsWith(s, [c])
    ensures EndsWith(Replace(s, pat, rep), [c])
  {
    var init := s[..|s| - 1];
    assert s == init + [c];
    ReplaceAppendChar(init, pat, rep, c);
  }

  /** If the result of replacing `int` by `bool` starts with `nt`, so did the input. */
  lemma ReplaceIntKeepsNtPrefix(t: string)
    ensures StartsWith(Replace(t, "int", "bool"), "nt") ==> StartsWith(t, "nt")
  {
    var r := Replace(t, "int", "bool");
    ReplaceHead(t, "int", "bool");
    if |t| > 0 && !StartsWith(t, "int") {
      assert r == [t[0]] + Replace(t[1..], "int", "bool");
      ReplaceHead(t[1..], "int", "bool");
      if |t| > 1 {
        assert t[1..][0] == t[1];
        assert r[1] == Replace(t[1..], "int", "bool")[0];
        assert StartsWith(r, "nt") ==> r[0] == 'n' && r[1] == 't';
      }
    }
  }

  /** Replacing `int` by `bool` leaves no `int` behind: `bool` has none of the
      letters of `int`, so no new occurrence can form across a replacement. */
  lemma {:induction false} ReplaceIntLeavesNoInt(s: string)
    decreases |s|
    ensures forall k :: !OccursAt(Replace(s, "int", "bool"), "int", k)
  {
    var r := Replace(s, "int", "bool");
    if |s| == 0 {
    } else if StartsWith(s, "int") {
      var rest := Replace(s[3..], "int", "bool");
      ReplaceIntLeavesNoInt(s[3..]);
      assert r == "bool" + rest;
      forall k ensures !OccursAt(r, "int", k) {
        if k < 0 {
        } else if k < 4 {
          assert k < |r| ==> r[k] != 'i';
        } else {
          OccursAtShift("bool", rest, "int", k);
        }
      }
    } else {
      var rest := Replace(s[1..], "int", "bool");
      ReplaceIntLeavesNoInt(s[1..]);
      assert r == [s[0]] + rest;
      forall k ensures !OccursAt(r, "int", k) {
        if k < 0 {
        } else if k == 0 {
          ReplaceIntKeepsNtPrefix(s[1..]);
          assert |r| >= 3 ==> r[1..3] == rest[..2];
        } else {
          OccursAtShift([s[0]], rest, "int", k);
        }
      }
    }
  }
}
