/**
 * Text as a sequence of lines, the way Python's `str.split(sep)`,
 * `sep.join(lines)` and the slice `xs[-n:]` see it.
 */
module Lines {

  /** Python's `s.split(sep)` for a one-character separator: never empty,
      and no piece contains the separator. `"".split(sep) == [""]`. */
  function Split(s: string, sep: char): (r: seq<string>)
    ensures |r| >= 1
    ensures forall i :: 0 <= i < |r| ==> sep !in r[i]
    decreases |s|
  {
    if |s| == 0 then [""]
    else if s[0] == sep then [""] + Split(s[1..], sep)
    else
      var t := Split(s[1..], sep);
      [[s[0]] + t[0]] + t[1..]
  }

  /** Python's `sep.join(lines)`. */
  function Join(lines: seq<string>, sep: char): string
    decreases |lines|
  {
    if |lines| == 0 then ""
    else if |lines| == 1 then lines[0]
    else lines[0] + [sep] + Join(lines[1..], sep)
  }

  /** Python's `xs[-n:]` for `n >= 1` (where `xs[-0:]` would be all of `xs`):
      the last `n` elements, or all of them when there are fewer. */
  function LastN<T>(xs: seq<T>, n: nat): (r: seq<T>)
    ensures |r| == if |xs| <= n then |xs| else n
    ensures forall i :: 0 <= i < |r| ==> r[i] == xs[|xs| - |r| + i]
  {
    if |xs| <= n then xs else xs[|xs| - n..]
  }

  /** Splitting around one separator splits the two sides independently. */
  lemma {:induction false} SplitAround(p: string, sep: char, b: string)
    ensures Split(p + [sep] + b, sep) == Split(p, sep) + Split(b, sep)
    decreases |p|
  {
    if |p| == 0 {
      assert p + [sep] + b == [sep] + b;
      assert ([sep] + b)[1..] == b;
    } else {
      var s := p + [sep] + b;
      assert s[0] == p[0];
      assert s[1..] == p[1..] + [sep] + b;
      SplitAround(p[1..], sep, b);
      if p[0] != sep {
        var t1 := Split(p[1..], sep);
        var t := Split(s[1..], sep);
        assert t == t1 + Split(b, sep);
        assert t[0] == t1[0];
        assert t[1..] == t1[1..] + Split(b, sep);
      }
    }
  }

  /** A line without the separator splits into itself alone. */
  lemma {:induction false} SplitSingle(a: string, sep: char)
    requires sep !in a
    ensures Split(a, sep) == [a]
    decreases |a|
  {
    if |a| > 0 {
      assert sep !in a[1..] by {
        forall i | 0 <= i < |a[1..]| ensures a[1..][i] != sep {
          assert a[1..][i] == a[i + 1];
        }
      }
      SplitSingle(a[1..], sep);
      assert [a[0]] + a[1..] == a;
    }
  }

  /** Joining and splitting again is the identity. */
  lemma {:induction false} SplitJoin(s: string, sep: char)
    ensures Join(Split(s, sep), sep) == s
    decreases |s|
  {
    if |s| > 0 {
      SplitJoin(s[1..], sep);
      var t := Split(s[1..], sep);
      if s[0] == sep {
        assert ([""] + t)[1..] == t;
        if |t| == 1 {
          assert Join([""] + t, sep) == "" + [sep] + t[0];
        }
      } else {
        var r := [[s[0]] + t[0]] + t[1..];
        if |t| == 1 {
          assert r == [[s[0]] + t[0]];
        } else {
          assert r[1..] == t[1..];
          assert Join(t, sep) == t[0] + [sep] + Join(t[1..], sep);
        }
        assert [s[0]] + s[1..] == s;
      }
    }
  }

  /** Lines without the separator survive a join followed by a split. */
  lemma {:induction false} JoinSplit(lines: seq<string>, sep: char)
    requires |lines| >= 1
    requires forall i :: 0 <= i < |lines| ==> sep !in lines[i]
    ensures Split(Join(lines, sep), sep) == lines
    decreases |lines|
  {
    SplitSingle(lines[0], sep);
    if |lines| > 1 {
      JoinSplit(lines[1..], sep);
      SplitAround(lines[0], sep, Join(lines[1..], sep));
      assert [lines[0]] + lines[1..] == lines;
    }
  }

  /** Joining two non-empty runs of lines puts one separator between their joins. */
  lemma {:induction false} JoinAppend(xs: seq<string>, ys: seq<string>, sep: char)
    requires |xs| >= 1 && |ys| >= 1
    ensures Join(xs + ys, sep) == Join(xs, sep) + [sep] + Join(ys, sep)
    decreases |xs|
  {
    if |xs| == 1 {
      assert (xs + ys)[1..] == ys;
    } else {
      assert (xs + ys)[1..] == xs[1..] + ys;
      JoinAppend(xs[1..], ys, sep);
    }
  }
}
