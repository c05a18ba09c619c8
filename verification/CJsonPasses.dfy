/** The two passes over a string literal when they get out of step: as long as the second one does not
    go on where the first one has stopped, what it writes fits. */
module CJsonPasses {
  import opened CString
  import opened CJsonText
  import opened CJsonLiterals

  // The first pass over the next n bytes stops among them, or goes on after them, or after one more
  // if the last of them is a backslash to it; it counts at least every other byte.
  predicate Crosses(p: string, n: nat)
    requires n <= |p|
  {
    || |Measure(p).1| > |p| - n
    || CountsTo(p, n)
    || (0 < n < |p| && p[n - 1] == '\\' && CountsTo(p, n + 1))
  }

  predicate CountsTo(p: string, n: nat)
    requires n <= |p|
  {
    MeasureInside(p[n..]) && Measure(p).1 == Measure(p[n..]).1 && 2 * (Measure(p).0 - Measure(p[n..]).0) >= n
  }

  // One unit, and the bytes after it.
  lemma CountsOn(p: string, u: nat, n: nat)
    requires p != "" && p[0] != '\"' && MeasureInside(p) && u == (if p[0] == '\\' then 2 else 1) && u <= n <= |p|
    requires CountsTo(p[u..], n - u)
    ensures CountsTo(p, n)
  {
    assert p[u..][n - u..] == p[n..];
  }

  lemma {:induction false} FirstPassCrosses(p: string, n: nat)
    requires n <= |p| && MeasureInside(p)
    ensures Crosses(p, n)
  {
    if n == 0 {
      assert p[0..] == p;
    } else if p[0] != '\"' {
      var u := if p[0] == '\\' then 2 else 1;
      if n < u {
        CountsOn(p, 2, 2);
      } else {
        FirstPassCrosses(p[u..], n - u);
        if CountsTo(p[u..], n - u) {
          CountsOn(p, u, n);
        } else if n < |p| && CountsTo(p[u..], n - u + 1) {
          CountsOn(p, u, n + 1);
        }
      }
    }
  }

  // The second pass does not stop after `stop`, where the first one does.
  predicate NotAfter(p: string, stop: string) {
    |Unescape(p).1| >= |stop|
  }

  // A \u escape and what the second pass makes of it.
  lemma UnitWrites(p: string)
    requires |p| >= 2 && p[0] == '\\' && p[1] == 'u' && EscapeInside(p[1..])
    ensures |p| >= 6
    ensures var (bytes, at) := UnescapeOne(p[1..]);
      if ReadsPair(p[1..]) then
        |p| >= 12 && Advance(at, 1) == p[12..] && |bytes| <= 4 && IsHexEscape(p) && p[6] == '\\' && p[7] == 'u'
      else Advance(at, 1) == p[6..] && |bytes| <= 3 && (p[5] == '\\' ==> bytes == "")
  {
    var q := p[1..];
    assert UnescapeOne(q) == UnescapeUnicode(q);
    var ptr := Advance(q, 4);
    assert ptr == p[5..] && Advance(ptr, 1) == p[6..] && Advance(q, 1) == p[2..];
    if ReadsPair(q) {
      assert Advance(ptr, 6) == p[11..] && Advance(p[11..], 1) == p[12..];
    }
  }

  // If the second pass does not stop after the first one, what it writes is no more than was counted.
  lemma {:induction false} OutputFits(p: string)
    requires MeasureInside(p) && UnescapeInside(p) && NotAfter(p, Measure(p).1)
    ensures |Unescape(p).0| <= Measure(p).0
    decreases |p|, 2
  {
    if p == "" || p[0] == '\"' {
    } else if p[0] != '\\' {
      OutputFits(p[1..]);
    } else if p[1] != 'u' {
      assert UnescapeOne(p[1..]).1 == p[1..] && Advance(p[1..], 1) == p[2..];
      OutputFits(p[2..]);
    } else {
      UnitFits(p);
    }
  }

  // The same where the first pass is one byte ahead, in the middle of an escape to it.
  lemma {:induction false} OutputFitsAhead(p: string)
    requires p != "" && MeasureInside(p[1..]) && UnescapeInside(p) && NotAfter(p, Measure(p[1..]).1)
    ensures |Unescape(p).0| <= Measure(p[1..]).0 + 1
    decreases |p|, 2
  {
    if p[0] == '\"' {
    } else if p[0] != '\\' {
      OutputFits(p[1..]);
    } else if p[1] == 'u' {
      assert p[1..][1..] == p[2..];
      UnitFits(p);
    } else {
      assert UnescapeOne(p[1..]).1 == p[1..] && Advance(p[1..], 1) == p[2..];
      EscapeAhead(p);
    }
  }

  lemma {:induction false} EscapeAhead(p: string)
    requires |p| >= 2 && p[0] == '\\' && p[1] != 'u' && MeasureInside(p[1..]) && UnescapeInside(p[2..])
    requires NotAfter(p[2..], Measure(p[1..]).1)
    ensures |Unescape(p[2..]).0| <= Measure(p[1..]).0
    decreases |p|, 0
  {
    assert p[1..][1..] == p[2..];
    if p[1] == '\\' {
      assert p[1..][2..] == p[2..][1..];
      OutputFitsAhead(p[2..]);
    } else if p[1] != '\"' {
      OutputFits(p[2..]);
    }
  }

  lemma {:induction false} UnitFits(p: string)
    requires |p| >= 2 && p[0] == '\\' && p[1] == 'u' && MeasureInside(p[2..]) && UnescapeInside(p)
    requires NotAfter(p, Measure(p[2..]).1)
    ensures |Unescape(p).0| <= Measure(p[2..]).0 + 1
    decreases |p|, 1
  {
    UnitWrites(p);
    if ReadsPair(p[1..]) {
      MeasureRun(p[2..], 4);
      assert p[2..][4..] == p[6..] && p[6..][2..] == p[8..];
      BehindUnit(p, 8);
    } else {
      BehindUnit(p, 2);
    }
  }

  // After the four bytes from k on, and what was written before.
  lemma {:induction false} BehindUnit(p: string, k: nat)
    requires 0 < k <= |p| - 4 && MeasureInside(p[k..]) && UnescapeInside(p[k + 4..])
    requires NotAfter(p[k + 4..], Measure(p[k..]).1)
    ensures |Unescape(p[k + 4..]).0| + (if p[k + 3] == '\\' then 0 else 2) <= Measure(p[k..]).0
    decreases |p|, 0
  {
    var q, r := p[k..], p[k + 4..];
    assert q[4..] == r && q[3] == p[k + 3];
    FirstPassCrosses(q, 4);
    if CountsTo(q, 4) {
      OutputFits(r);
    } else if CountsTo(q, 5) {
      assert q[5..] == r[1..];
      OutputFitsAhead(r);
    }
  }
}
