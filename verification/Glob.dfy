/**
 The `*`-glob matcher that the block list uses (`github.com/ryanuber/go-glob`, as vendored).
 `Matches` is the reference meaning of a pattern: `*` stands for any text, every other character
 (`?` included) for itself. `Glob` is the library's greedy, split-based algorithm.
 */
module Glob {

  /** The meaning of a pattern. */
  predicate Matches(p: string, s: string)
    decreases |p| + |s|
  {
    if p == "" then s == ""
    else if p[0] == '*' then Matches(p[1..], s) || (s != "" && Matches(p, s[1..]))
    else s != "" && s[0] == p[0] && Matches(p[1..], s[1..])
  }

  // -------- transitivity --------

  /** What a pattern matches as text, it covers as a pattern. */
  lemma {:induction false} MatchesTransitive(p: string, q: string, s: string)
    requires Matches(p, q) && Matches(q, s)
    ensures Matches(p, s)
    decreases |p| + |q| + |s|
  {
    if p == "" {
    } else if p[0] == '*' {
      if Matches(p[1..], q) {
        MatchesTransitive(p[1..], q, s);
      } else if q[0] != '*' {
        MatchesTransitive(p, q[1..], s[1..]);
      } else if Matches(q[1..], s) {
        MatchesTransitive(p, q[1..], s);
      } else {
        MatchesTransitive(p, q, s[1..]);
      }
    } else {
      MatchesTransitive(p[1..], q[1..], s[1..]);
    }
  }

  /** A pattern without `*` means itself. */
  lemma {:induction false} LiteralMatchesItself(p: string, s: string)
    requires '*' !in p
    ensures Matches(p, s) <==> p == s
  {
    if p != "" && s != "" && s[0] == p[0] {
      LiteralMatchesItself(p[1..], s[1..]);
      assert p == [p[0]] + p[1..] && s == [s[0]] + s[1..];
    }
  }

  /** Every text, read as a pattern, covers itself. */
  lemma {:induction false} MatchesReflexive(s: string)
    ensures Matches(s, s)
  {
    if s != "" {
      MatchesReflexive(s[1..]);
      if s[0] == '*' {
        StarSkips(s[1..], s, 1);
      }
    }
  }

  // -------- leading stars --------

  lemma {:induction false} StarSkips(q: string, s: string, k: nat)
    requires k <= |s| && Matches("*" + q, s[k..])
    ensures Matches("*" + q, s)
  {
    if k == 0 {
      assert s[0..] == s;
    } else {
      assert s[1..][k - 1..] == s[k..];
      StarSkips(q, s[1..], k - 1);
    }
  }

  lemma {:induction false} StarFromSuffix(q: string, s: string, k: nat)
    requires k <= |s| && Matches(q, s[k..])
    ensures Matches("*" + q, s)
  {
    assert ("*" + q)[1..] == q;
    StarSkips(q, s, k);
  }

  /** A leading star matches exactly when the rest matches some suffix. */
  lemma {:induction false} StarToSuffix(q: string, s: string) returns (k: nat)
    requires Matches("*" + q, s)
    ensures k <= |s| && Matches(q, s[k..])
  {
    assert ("*" + q)[1..] == q;
    if Matches(q, s) {
      k := 0;
      assert s[0..] == s;
    } else {
      k := StarToSuffix(q, s[1..]);
      assert s[1..][k..] == s[k + 1..];
      k := k + 1;
    }
  }

  /** A literal prefix of a pattern is a prefix of what it matches. */
  lemma {:induction false} LiteralPrefix(lit: string, q: string, s: string)
    requires '*' !in lit
    ensures Matches(lit + q, s) <==> lit <= s && Matches(q, s[|lit|..])
  {
    if lit == "" {
      assert lit + q == q && s[0..] == s;
    } else {
      assert (lit + q)[1..] == lit[1..] + q;
      if s != "" {
        LiteralPrefix(lit[1..], q, s[1..]);
        assert lit == [lit[0]] + lit[1..] && s == [s[0]] + s[1..];
        if lit[0] == s[0] && lit[1..] <= s[1..] {
          assert s[1..][|lit| - 1..] == s[|lit|..];
          assert lit <= s;
        }
      }
    }
  }

  // -------- the string helpers the algorithm calls --------

  predicate OccursAt(s: string, t: string, i: int) {
    0 <= i && i + |t| <= |s| && s[i..i + |t|] == t
  }

  /** `strings.Index`: the first occurrence of t in s, or -1. */
  function Index(s: string, t: string): (r: int)
    ensures r == -1 || OccursAt(s, t, r)
    ensures forall i :: 0 <= i && (r == -1 || i < r) ==> !OccursAt(s, t, i)
  {
    IndexFrom(s, t, 0)
  }

  function IndexFrom(s: string, t: string, from: nat): (r: int)
    requires from <= |s| + 1
    ensures r == -1 || (from <= r && OccursAt(s, t, r))
    ensures forall i :: from <= i && (r == -1 || i < r) ==> !OccursAt(s, t, i)
    decreases |s| + 1 - from
  {
    if from + |t| > |s| then -1
    else if s[from..from + |t|] == t then from
    else IndexFrom(s, t, from + 1)
  }

  /** `strings.Split(s, "*")`. */
  function Split(s: string): (parts: seq<string>)
    ensures |parts| >= 1
    ensures forall i :: 0 <= i < |parts| ==> '*' !in parts[i]
    ensures Joined(parts) == s
  {
    if s == "" then [""]
    else
      var rest := Split(s[1..]);
      if s[0] == '*' then
        assert s == "" + "*" + s[1..];
        assert ([""] + rest)[1..] == rest;
        [""] + rest
      else
        var parts := [[s[0]] + rest[0]] + rest[1..];
        assert parts[1..] == rest[1..];
        assert [s[0]] + Joined(rest) == Joined(parts);
        parts
  }

  function Joined(parts: seq<string>): string
    requires |parts| >= 1
  {
    if |parts| == 1 then parts[0] else parts[0] + "*" + Joined(parts[1..])
  }

  predicate HasSuffix(s: string, t: string) {
    |t| <= |s| && s[|s| - |t|..] == t
  }

  // -------- the greedy step --------

  /** The first occurrence leaves at least as much of the subject as any other. */
  lemma {:induction false} GreedyFindsMatch(part: string, rest: string, s: string)
    requires '*' !in part && Matches("*" + (part + "*" + rest), s)
    ensures Index(s, part) >= 0 && Matches("*" + rest, s[Index(s, part) + |part|..])
  {
    var k := StarToSuffix(part + "*" + rest, s);
    assert part + "*" + rest == part + ("*" + rest);
    LiteralPrefix(part, "*" + rest, s[k..]);
    assert s[k..][..|part|] == s[k..k + |part|];
    assert OccursAt(s, part, k);
    var after := s[Index(s, part) + |part|..];
    assert after[k - Index(s, part)..] == s[k..][|part|..];
    StarSkips(rest, after, k - Index(s, part));
  }

  lemma {:induction false} GreedyMatchCounts(part: string, rest: string, s: string)
    requires '*' !in part && Index(s, part) >= 0 && Matches("*" + rest, s[Index(s, part) + |part|..])
    ensures Matches("*" + (part + "*" + rest), s)
  {
    var idx := Index(s, part);
    assert s[idx..][..|part|] == part && s[idx..][|part|..] == s[idx + |part|..];
    assert part + "*" + rest == part + ("*" + rest);
    LiteralPrefix(part, "*" + rest, s[idx..]);
    StarFromSuffix(part + "*" + rest, s, idx);
  }

  /** After a star, taking the first occurrence of the next literal part loses no match. */
  lemma GreedyStep(part: string, rest: string, s: string)
    requires '*' !in part
    ensures Matches("*" + (part + "*" + rest), s)
            <==> Index(s, part) >= 0 && Matches("*" + rest, s[Index(s, part) + |part|..])
  {
    if Matches("*" + (part + "*" + rest), s) {
      GreedyFindsMatch(part, rest, s);
    } else if Index(s, part) >= 0 && Matches("*" + rest, s[Index(s, part) + |part|..]) {
      GreedyMatchCounts(part, rest, s);
    }
  }

  /** The last part must end the subject. */
  lemma {:induction false} LastStep(part: string, s: string)
    requires '*' !in part
    ensures Matches("*" + part, s) <==> HasSuffix(s, part)
  {
    if Matches("*" + part, s) {
      var k := StarToSuffix(part, s);
      LiteralMatchesItself(part, s[k..]);
    }
    if HasSuffix(s, part) {
      LiteralMatchesItself(part, s[|s| - |part|..]);
      StarFromSuffix(part, s, |s| - |part|);
    }
  }

  /** The first part is anchored: it must be a prefix. */
  lemma {:induction false} FirstStep(part: string, rest: string, s: string)
    requires '*' !in part
    ensures Matches(part + "*" + rest, s)
            <==> Index(s, part) == 0 && Matches("*" + rest, s[|part|..])
  {
    assert part + "*" + rest == part + ("*" + rest);
    LiteralPrefix(part, "*" + rest, s);
    if part <= s {
      assert OccursAt(s, part, 0);
    }
    if Index(s, part) == 0 {
      assert s[0..|part|] == part;
    }
  }

  lemma EndsWithStar(parts: seq<string>)
    requires |parts| >= 2
    requires forall i :: 0 <= i < |parts| ==> '*' !in parts[i]
    ensures var p := Joined(parts);
            p != "" && (p[|p| - 1] == '*' <==> parts[|parts| - 1] == "")
  {
  }

  /** The library's algorithm decides exactly the reference meaning, on every pattern and subject. */
  method Glob(pattern: string, subject: string) returns (matched: bool)
    ensures matched == Matches(pattern, subject)
  {
    if pattern == "" {
      return subject == pattern;
    }
    if pattern == "*" {
      StarFromSuffix("", subject, |subject|);
      assert "*" + "" == pattern;
      return true;
    }
    var parts := Split(pattern);
    if |parts| == 1 {
      LiteralMatchesItself(pattern, subject);
      return subject == pattern;
    }
    var leadingGlob := pattern[0] == '*';
    var trailingGlob := pattern[|pattern| - 1] == '*';
    var end := |parts| - 1;
    var subj := subject;
    var i := 0;
    while i < end
      invariant 0 <= i <= end
      invariant i == 0 ==> subj == subject
      invariant i > 0 ==> (Matches(pattern, subject) <==> Matches("*" + Joined(parts[i..]), subj))
    {
      var idx := Index(subj, parts[i]);
      assert parts[i..][1..] == parts[i + 1..];
      if i == 0 {
        assert parts[0..] == parts;
        FirstStep(parts[0], Joined(parts[1..]), subj);
        if !leadingGlob && idx != 0 {
          return false;
        }
        if leadingGlob {
          assert pattern[0] == (parts[0] + "*")[0];
          assert parts[0] == "";
          assert OccursAt(subj, "", 0);
        }
      } else {
        GreedyStep(parts[i], Joined(parts[i + 1..]), subj);
        if idx < 0 {
          return false;
        }
      }
      subj := subj[idx + |parts[i]|..];
      i := i + 1;
    }
    assert parts[end..] == [parts[end]];
    LastStep(parts[end], subj);
    EndsWithStar(parts);
    return trailingGlob || HasSuffix(subj, parts[end]);
  }
}
