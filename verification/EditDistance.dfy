/** Levenshtein distance: the two dynamic programs of the repository against
    least-cost edit scripts, and the metric laws. */
module EditDistance {
  import opened Collections

  // ---------------------------------------------------------------------
  // Reference definition: edit scripts
  // ---------------------------------------------------------------------

  datatype Edit<T> = Keep | Substitute(with: T) | Add(what: T) | Delete

  /** What a script turns `a` into; None when it runs out of elements or leaves some over.
      The last edit of the script deals with the end of the sequence. */
  function Apply<T>(script: seq<Edit<T>>, a: seq<T>): Option<seq<T>> {
    if script == [] then
      if a == [] then Some([]) else None
    else
      var init, last := script[..|script| - 1], script[|script| - 1];
      if last.Add? then
        var b := Apply(init, a);
        if b.Some? then Some(b.value + [last.what]) else None
      else if a == [] then None
      else
        var b := Apply(init, a[..|a| - 1]);
        if b.None? then None
        else match last
          case Keep => Some(b.value + [a[|a| - 1]])
          case Substitute(x) => Some(b.value + [x])
          case Delete => b
  }

  /** Every edit but Keep costs one. */
  function Cost<T>(script: seq<Edit<T>>): nat {
    if script == [] then 0
    else Cost(script[..|script| - 1]) + if script[|script| - 1].Keep? then 0 else 1
  }

  /** What one more edit at the end does. */
  lemma OneMoreEdit<T>(init: seq<Edit<T>>, last: Edit<T>, a: seq<T>, b: seq<T>)
    requires if last.Add? then Apply(init, a) == Some(b)
             else a != [] && Apply(init, a[..|a| - 1]) == Some(b)
    ensures Cost(init + [last]) == Cost(init) + if last.Keep? then 0 else 1
    ensures Apply(init + [last], a) == Some(match last
              case Keep => b + [a[|a| - 1]]
              case Substitute(x) => b + [x]
              case Add(x) => b + [x]
              case Delete => b)
  {
  }

  // ---------------------------------------------------------------------
  // The recurrence both programs tabulate
  // ---------------------------------------------------------------------

  function Least(x: nat, y: nat, z: nat): nat {
    if x <= y && x <= z then x else if y <= z then y else z
  }

  function Mismatch<T(==)>(x: T, y: T): nat { if x == y then 0 else 1 }

  /** Distance between the first `i` elements of `a` and the first `j` of `b`. */
  function Dist<T(==)>(a: seq<T>, b: seq<T>, i: nat, j: nat): nat
    requires i <= |a| && j <= |b|
    decreases i + j
  {
    if i == 0 then j
    else if j == 0 then i
    else Least(Dist(a, b, i - 1, j) + 1, Dist(a, b, i, j - 1) + 1,
               Dist(a, b, i - 1, j - 1) + Mismatch(a[i - 1], b[j - 1]))
  }

  function Distance<T(==)>(a: seq<T>, b: seq<T>): nat { Dist(a, b, |a|, |b|) }

  /** The recurrence, for proofs that hide it otherwise. */
  lemma Recurrence<T>(a: seq<T>, b: seq<T>, i: nat, j: nat)
    requires i <= |a| && j <= |b|
    ensures i == 0 ==> Dist(a, b, i, j) == j
    ensures j == 0 ==> Dist(a, b, i, j) == i
    ensures i > 0 && j > 0 ==>
              Dist(a, b, i, j) == Least(Dist(a, b, i - 1, j) + 1, Dist(a, b, i, j - 1) + 1,
                                        Dist(a, b, i - 1, j - 1) + Mismatch(a[i - 1], b[j - 1]))
  {
  }

  // ---------------------------------------------------------------------
  // Distance is the least cost of a script
  // ---------------------------------------------------------------------

  /** The script turns the first `i` elements of `a` into the first `j` of `b`. */
  ghost predicate Turns<T>(script: seq<Edit<T>>, a: seq<T>, i: nat, b: seq<T>, j: nat)
    requires i <= |a| && j <= |b|
  {
    Apply(script, a[..i]) == Some(b[..j])
  }

  lemma EmptyTurns<T>(a: seq<T>, b: seq<T>)
    ensures Turns([], a, 0, b, 0) && Cost<T>([]) == 0
  {
  }

  lemma TurnsAdding<T>(script: seq<Edit<T>>, a: seq<T>, i: nat, b: seq<T>, j: nat)
    requires i <= |a| && 0 < j <= |b| && Turns(script, a, i, b, j - 1)
    ensures Turns(script + [Add(b[j - 1])], a, i, b, j) && Cost(script + [Add(b[j - 1])]) == Cost(script) + 1
  {
    OneMoreEdit(script, Add(b[j - 1]), a[..i], b[..j - 1]);
    assert b[..j] == b[..j - 1] + [b[j - 1]];
  }

  lemma TurnsDeleting<T>(script: seq<Edit<T>>, a: seq<T>, i: nat, b: seq<T>, j: nat)
    requires 0 < i <= |a| && j <= |b| && Turns(script, a, i - 1, b, j)
    ensures Turns(script + [Delete], a, i, b, j) && Cost(script + [Delete]) == Cost(script) + 1
  {
    assert a[..i][..i - 1] == a[..i - 1];
    OneMoreEdit(script, Delete, a[..i], b[..j]);
  }

  lemma TurnsMatching<T>(script: seq<Edit<T>>, a: seq<T>, i: nat, b: seq<T>, j: nat)
    requires 0 < i <= |a| && 0 < j <= |b| && Turns(script, a, i - 1, b, j - 1)
    ensures var last := if a[i - 1] == b[j - 1] then Keep else Substitute(b[j - 1]);
            Turns(script + [last], a, i, b, j)
            && Cost(script + [last]) == Cost(script) + Mismatch(a[i - 1], b[j - 1])
  {
    assert a[..i][..i - 1] == a[..i - 1];
    assert b[..j] == b[..j - 1] + [b[j - 1]];
    OneMoreEdit(script, if a[i - 1] == b[j - 1] then Keep else Substitute(b[j - 1]), a[..i], b[..j - 1]);
  }

  /** Some script of exactly that cost does the job. */
  lemma {:induction false} ScriptAttains<T>(a: seq<T>, b: seq<T>, i: nat, j: nat) returns (script: seq<Edit<T>>)
    requires i <= |a| && j <= |b|
    ensures Turns(script, a, i, b, j) && Cost(script) == Dist(a, b, i, j)
    decreases i + j
  {
    hide *;
    Recurrence(a, b, i, j);
    if i == 0 && j == 0 {
      EmptyTurns(a, b);
      return [];
    }
    if i > 0 { Recurrence(a, b, i - 1, j); }
    if j > 0 { Recurrence(a, b, i, j - 1); }
    if j > 0 && Dist(a, b, i, j) == Dist(a, b, i, j - 1) + 1 {
      var init := ScriptAttains(a, b, i, j - 1);
      TurnsAdding(init, a, i, b, j);
      return init + [Add(b[j - 1])];
    }
    if i > 0 && Dist(a, b, i, j) == Dist(a, b, i - 1, j) + 1 {
      var init := ScriptAttains(a, b, i - 1, j);
      TurnsDeleting(init, a, i, b, j);
      return init + [Delete];
    }
    LeastIsOneOf(Dist(a, b, i - 1, j) + 1, Dist(a, b, i, j - 1) + 1,
                 Dist(a, b, i - 1, j - 1) + Mismatch(a[i - 1], b[j - 1]));
    var init := ScriptAttains(a, b, i - 1, j - 1);
    TurnsMatching(init, a, i, b, j);
    return init + [if a[i - 1] == b[j - 1] then Keep else Substitute(b[j - 1])];
  }

  lemma LeastIsOneOf(x: nat, y: nat, z: nat)
    ensures Least(x, y, z) == x || Least(x, y, z) == y || Least(x, y, z) == z
  {
  }

  /** One more element on either side changes the distance by at most one. */
  lemma DistSteps<T>(a: seq<T>, b: seq<T>, i: nat, j: nat)
    requires i <= |a| && j <= |b|
    ensures i > 0 ==> Dist(a, b, i, j) <= Dist(a, b, i - 1, j) + 1
    ensures j > 0 ==> Dist(a, b, i, j) <= Dist(a, b, i, j - 1) + 1
    ensures i > 0 && j > 0 ==> Dist(a, b, i, j) <= Dist(a, b, i - 1, j - 1) + Mismatch(a[i - 1], b[j - 1])
  {
  }

  /** No script is cheaper. */
  lemma {:induction false} NoScriptCheaper<T>(script: seq<Edit<T>>, a: seq<T>, b: seq<T>, i: nat, j: nat)
    requires i <= |a| && j <= |b|
    requires Apply(script, a[..i]) == Some(b[..j])
    ensures Dist(a, b, i, j) <= Cost(script)
    decreases |script|
  {
    hide Dist;
    Recurrence(a, b, i, j);
    if script == [] {
      assert |a[..i]| == 0 && |b[..j]| == 0;
    } else {
      var init, last := script[..|script| - 1], script[|script| - 1];
      DistSteps(a, b, i, j);
      if last.Add? {
        DropLast(Apply(init, a[..i]).value, last.what, b, j);
        NoScriptCheaper(init, a, b, i, j - 1);
      } else {
        assert i > 0 && a[..i][..i - 1] == a[..i - 1];
        var out := Apply(init, a[..i - 1]).value;
        if last.Delete? {
          NoScriptCheaper(init, a, b, i - 1, j);
        } else {
          DropLast(out, if last.Keep? then a[i - 1] else last.with, b, j);
          NoScriptCheaper(init, a, b, i - 1, j - 1);
        }
      }
    }
  }

  lemma DropLast<T>(init: seq<T>, last: T, b: seq<T>, j: nat)
    requires j <= |b| && b[..j] == init + [last]
    ensures j > 0 && b[..j - 1] == init && b[j - 1] == last
  {
  }

  /** The main theorem: the distance is attained by a script and is below every script. */
  lemma DistanceIsLeastCost<T>(a: seq<T>, b: seq<T>)
    ensures exists script: seq<Edit<T>> :: Apply(script, a) == Some(b) && Cost(script) == Distance(a, b)
    ensures forall script: seq<Edit<T>> :: Apply(script, a) == Some(b) ==> Distance(a, b) <= Cost(script)
  {
    assert a[..|a|] == a && b[..|b|] == b;
    var best := ScriptAttains(a, b, |a|, |b|);
    assert Apply(best, a) == Some(b);
    forall script: seq<Edit<T>> | Apply(script, a) == Some(b)
      ensures Distance(a, b) <= Cost(script)
    {
      NoScriptCheaper(script, a, b, |a|, |b|);
    }
  }

  // ---------------------------------------------------------------------
  // Metric laws
  // ---------------------------------------------------------------------

  lemma {:induction false} ZeroIffEqual<T>(a: seq<T>, b: seq<T>, i: nat, j: nat)
    requires i <= |a| && j <= |b|
    ensures Dist(a, b, i, j) == 0 <==> a[..i] == b[..j]
    decreases i + j
  {
    hide Dist;
    Recurrence(a, b, i, j);
    if i == 0 || j == 0 {
      assert |a[..i]| == i && |b[..j]| == j;
    } else {
      ZeroIffEqual(a, b, i - 1, j - 1);
      assert a[..i] == a[..i - 1] + [a[i - 1]];
      assert b[..j] == b[..j - 1] + [b[j - 1]];
    }
  }

  lemma {:induction false} DistSymmetric<T>(a: seq<T>, b: seq<T>, i: nat, j: nat)
    requires i <= |a| && j <= |b|
    ensures Dist(a, b, i, j) == Dist(b, a, j, i)
    decreases i + j
  {
    hide Dist;
    Recurrence(a, b, i, j);
    Recurrence(b, a, j, i);
    if i > 0 && j > 0 {
      DistSymmetric(a, b, i - 1, j);
      DistSymmetric(a, b, i, j - 1);
      DistSymmetric(a, b, i - 1, j - 1);
    }
  }

  lemma {:induction false} LengthBound<T>(a: seq<T>, b: seq<T>, i: nat, j: nat)
    requires i <= |a| && j <= |b|
    ensures i <= j + Dist(a, b, i, j) && j <= i + Dist(a, b, i, j)
    ensures Dist(a, b, i, j) <= (if i <= j then j else i)
    decreases i + j
  {
    hide Dist;
    Recurrence(a, b, i, j);
    if i > 0 && j > 0 {
      LengthBound(a, b, i - 1, j);
      LengthBound(a, b, i, j - 1);
      LengthBound(a, b, i - 1, j - 1);
    }
  }

  lemma {:induction false} DistTriangle<T>(a: seq<T>, b: seq<T>, c: seq<T>, i: nat, j: nat, k: nat)
    requires i <= |a| && j <= |b| && k <= |c|
    ensures Dist(a, c, i, k) <= Dist(a, b, i, j) + Dist(b, c, j, k)
    decreases i + j + k, 1
  {
    hide Dist;
    if i == 0 || k == 0 {
      Recurrence(a, c, i, k);
      LengthBound(a, b, i, j);
      LengthBound(b, c, j, k);
    } else if j == 0 {
      Recurrence(a, b, i, j);
      Recurrence(b, c, j, k);
      LengthBound(a, c, i, k);
    } else {
      DistSteps(a, c, i, k);
      DistUnfold(a, b, i, j);
      if Dist(a, b, i, j) == Dist(a, b, i - 1, j) + 1 {
        DistTriangle(a, b, c, i - 1, j, k);
      } else if Dist(b, c, j, k) == Dist(b, c, j, k - 1) + 1 {
        DistTriangle(a, b, c, i, j, k - 1);
      } else if Dist(a, b, i, j) == Dist(a, b, i, j - 1) + 1 {
        TriangleAdding(a, b, c, i, j, k);
      } else if Dist(b, c, j, k) == Dist(b, c, j - 1, k) + 1 {
        DistTriangle(a, b, c, i - 1, j - 1, k);
      } else {
        DistUnfold(b, c, j, k);
        TriangleMatching(a, b, c, i, j, k);
      }
    }
  }

  lemma {:induction false} TriangleAdding<T>(a: seq<T>, b: seq<T>, c: seq<T>, i: nat, j: nat, k: nat)
    requires 0 < i <= |a| && 0 < j <= |b| && 0 < k <= |c|
    requires Dist(a, b, i, j) == Dist(a, b, i, j - 1) + 1
    requires Dist(b, c, j, k) != Dist(b, c, j, k - 1) + 1
    ensures Dist(a, c, i, k) <= Dist(a, b, i, j) + Dist(b, c, j, k)
    decreases i + j + k, 0
  {
    hide Dist;
    DistSteps(a, c, i, k);
    DistUnfold(b, c, j, k);
    if Dist(b, c, j, k) == Dist(b, c, j - 1, k) + 1 {
      DistTriangle(a, b, c, i, j - 1, k);
    } else {
      DistTriangle(a, b, c, i, j - 1, k - 1);
    }
  }

  lemma {:induction false} TriangleMatching<T>(a: seq<T>, b: seq<T>, c: seq<T>, i: nat, j: nat, k: nat)
    requires 0 < i <= |a| && 0 < j <= |b| && 0 < k <= |c|
    requires Dist(a, b, i, j) == Dist(a, b, i - 1, j - 1) + Mismatch(a[i - 1], b[j - 1])
    requires Dist(b, c, j, k) == Dist(b, c, j - 1, k - 1) + Mismatch(b[j - 1], c[k - 1])
    ensures Dist(a, c, i, k) <= Dist(a, b, i, j) + Dist(b, c, j, k)
    decreases i + j + k, 0
  {
    hide Dist;
    DistSteps(a, c, i, k);
    DistTriangle(a, b, c, i - 1, j - 1, k - 1);
  }

  lemma DistUnfold<T>(a: seq<T>, b: seq<T>, i: nat, j: nat)
    requires 0 < i <= |a| && 0 < j <= |b|
    ensures || Dist(a, b, i, j) == Dist(a, b, i - 1, j) + 1
            || Dist(a, b, i, j) == Dist(a, b, i, j - 1) + 1
            || Dist(a, b, i, j) == Dist(a, b, i - 1, j - 1) + Mismatch(a[i - 1], b[j - 1])
  {
  }

  /** The distance is a metric on sequences. */
  lemma DistanceIsMetric<T>(a: seq<T>, b: seq<T>, c: seq<T>)
    ensures Distance(a, b) == 0 <==> a == b
    ensures Distance(a, b) == Distance(b, a)
    ensures Distance(a, c) <= Distance(a, b) + Distance(b, c)
  {
    assert a[..|a|] == a && b[..|b|] == b;
    ZeroIffEqual(a, b, |a|, |b|);
    DistSymmetric(a, b, |a|, |b|);
    DistTriangle(a, b, c, |a|, |b|, |c|);
  }

  // ---------------------------------------------------------------------
  // The two programs
  // ---------------------------------------------------------------------

  /** The rolling two-row program of the command line (there over bytes). */
  method RollingDistance<T(==)>(a: seq<T>, b: seq<T>) returns (d: nat)
    ensures d == Distance(a, b)
  {
    hide Dist;
    var m, n := |a|, |b|;
    Recurrence(a, b, m, n);
    if m == 0 { return n; }
    if n == 0 { return m; }
    var prev := new nat[n + 1](k => k);
    var curr := new nat[n + 1](_ => 0);
    forall k | 0 <= k <= n ensures Dist(a, b, 0, k) == k { Recurrence(a, b, 0, k); }
    for i := 1 to m + 1
      invariant prev.Length == n + 1 == curr.Length && prev != curr
      invariant fresh(prev) && fresh(curr)
      invariant forall k :: 0 <= k <= n ==> prev[k] == Dist(a, b, i - 1, k)
    {
      curr[0] := i;
      Recurrence(a, b, i, 0);
      for j := 1 to n + 1
        invariant forall k :: 0 <= k <= n ==> prev[k] == Dist(a, b, i - 1, k)
        invariant forall k :: 0 <= k < j ==> curr[k] == Dist(a, b, i, k)
      {
        Recurrence(a, b, i, j);
        curr[j] := Least(prev[j] + 1, curr[j - 1] + 1, prev[j - 1] + Mismatch(a[i - 1], b[j - 1]));
      }
      prev, curr := curr, prev;
    }
    d := prev[n];
  }

  /** The full-matrix program of the core crate (there over characters): row `j`,
      column `i` of the matrix belongs to the first `i` of `s1` and the first `j` of `s2`. */
  method MatrixDistance<T(==)>(s1: seq<T>, s2: seq<T>) returns (d: nat)
    ensures d == Distance(s1, s2)
  {
    hide Dist;
    var len1, len2 := |s1|, |s2|;
    var matrix := new nat[len2 + 1, len1 + 1]((_, _) => 0);
    for i := 0 to len1 + 1
      invariant forall k :: 0 <= k < i ==> matrix[0, k] == k
    {
      matrix[0, i] := i;
    }
    for j := 0 to len2 + 1
      invariant forall k :: 0 <= k <= len1 ==> matrix[0, k] == k
      invariant forall k :: 0 <= k < j ==> matrix[k, 0] == k
    {
      matrix[j, 0] := j;
    }
    forall k | 0 <= k <= len1 ensures Dist(s1, s2, k, 0) == k { Recurrence(s1, s2, k, 0); }
    for j := 1 to len2 + 1
      invariant forall r, k :: j - 1 <= r < j && 0 <= k <= len1 ==> matrix[r, k] == Dist(s1, s2, k, r)
      invariant forall r :: j <= r <= len2 ==> matrix[r, 0] == r
    {
      Recurrence(s1, s2, 0, j);
      for i := 1 to len1 + 1
        invariant forall r, k :: j - 1 <= r < j && 0 <= k <= len1 ==> matrix[r, k] == Dist(s1, s2, k, r)
        invariant forall k :: 0 <= k < i ==> matrix[j, k] == Dist(s1, s2, k, j)
        invariant forall r :: j < r <= len2 ==> matrix[r, 0] == r
      {
        Recurrence(s1, s2, i, j);
        matrix[j, i] := Least(matrix[j, i - 1] + 1, matrix[j - 1, i] + 1,
                              matrix[j - 1, i - 1] + Mismatch(s1[i - 1], s2[j - 1]));
      }
    }
    d := matrix[len2, len1];
  }

  /** Renaming elements without merging or splitting them keeps the distance: on ASCII text, where each
      character is one byte, the byte program and the character program agree. */
  lemma {:induction false} DistRenamed<T, U>(f: T -> U, a: seq<T>, b: seq<T>, i: nat, j: nat)
    requires forall x, y :: x in a && y in b ==> (f(x) == f(y) <==> x == y)
    requires i <= |a| && j <= |b|
    ensures Dist(Map(f, a), Map(f, b), i, j) == Dist(a, b, i, j)
    decreases i + j
  {
    hide Dist;
    Recurrence(Map(f, a), Map(f, b), i, j);
    Recurrence(a, b, i, j);
    if i > 0 && j > 0 {
      DistRenamed(f, a, b, i - 1, j);
      DistRenamed(f, a, b, i, j - 1);
      DistRenamed(f, a, b, i - 1, j - 1);
      assert Mismatch(Map(f, a)[i - 1], Map(f, b)[j - 1]) == Mismatch(a[i - 1], b[j - 1]);
    }
  }

  /** Beyond ASCII they do not: U+00E9 is the two bytes C3 A9, so it is two byte edits
      away from U+0065 but one character edit. */
  lemma BytesAndCharactersDiffer()
    ensures Distance([0xC3, 0xA9], [0x65]) == 2 && Distance([0xE9], [0x65]) == 1
  {
  }

  // ---------------------------------------------------------------------
  // Suggestions
  // ---------------------------------------------------------------------

  /** `best` is the earliest of the nearest candidates within `maxDistance`. */
  ghost predicate IsClosest<T(!new)>(input: seq<T>, candidates: seq<seq<T>>, maxDistance: nat, best: nat) {
    && best < |candidates|
    && Distance(input, candidates[best]) <= maxDistance
    && (forall k :: 0 <= k < |candidates| ==> Distance(input, candidates[best]) <= Distance(input, candidates[k]))
    && (forall k :: 0 <= k < best ==> Distance(input, candidates[best]) < Distance(input, candidates[k]))
  }

  /** The earliest nearest candidate, or None exactly when none is near enough. */
  method FindClosestMatch<T(==,!new)>(input: seq<T>, candidates: seq<seq<T>>, maxDistance: nat)
    returns (r: Option<seq<T>>)
    ensures r.None? ==> forall k :: 0 <= k < |candidates| ==> Distance(input, candidates[k]) > maxDistance
    ensures r.Some? ==>
              exists best: nat :: IsClosest(input, candidates, maxDistance, best) && r.value == candidates[best]
  {
    r := None;
    var bestDistance := 0;
    ghost var best := 0;
    for i := 0 to |candidates|
      invariant r.None? ==> forall k :: 0 <= k < i ==> Distance(input, candidates[k]) > maxDistance
      invariant r.Some? ==> IsClosest(input, candidates[..i], maxDistance, best)
                            && r.value == candidates[best] && bestDistance == Distance(input, candidates[best])
    {
      assert candidates[..i + 1] == candidates[..i] + [candidates[i]];
      var d := MatrixDistance(input, candidates[i]);
      if (r.None? || d < bestDistance) && d <= maxDistance {
        bestDistance := d;
        r := Some(candidates[i]);
        best := i;
      }
    }
    assert candidates[..|candidates|] == candidates;
  }

  datatype Scored<T> = Scored(distance: nat, candidate: T)

  /** Candidates near enough to `input` but not equal to it, nearest first, at most `max`.
      `fold` stands for lower-casing a name and taking its bytes. */
  function Suggest<C, B(==)>(fold: C -> seq<B>, input: C, candidates: seq<C>, threshold: nat, max: nat): seq<C> {
    var sorted := Suggestions(fold, input, candidates, threshold);
    Map(CandidateOf<C>(), if max <= |sorted| then sorted[..max] else sorted)
  }

  function Suggestions<C, B(==)>(fold: C -> seq<B>, input: C, candidates: seq<C>, threshold: nat): seq<Scored<C>> {
    StableSort(ByDistance<C>(), Scoring(fold, input, candidates, threshold))
  }

  function ByDistance<C>(): (Scored<C>, Scored<C>) -> bool {
    (x: Scored<C>, y: Scored<C>) => x.distance <= y.distance
  }

  function Scoring<C, B(==)>(fold: C -> seq<B>, input: C, candidates: seq<C>, threshold: nat): seq<Scored<C>> {
    if candidates == [] then []
    else
      var rest := Scoring(fold, input, candidates[1..], threshold);
      var d := Distance(fold(input), fold(candidates[0]));
      if fold(candidates[0]) != fold(input) && d <= threshold then [Scored(d, candidates[0])] + rest else rest
  }

  ghost predicate Eligible<C, B>(fold: C -> seq<B>, input: C, threshold: nat, c: C) {
    1 <= Distance(fold(input), fold(c)) <= threshold
  }

  lemma {:induction false} ScoringMembers<C(!new), B>(fold: C -> seq<B>, input: C, candidates: seq<C>, threshold: nat)
    ensures forall s :: s in Scoring(fold, input, candidates, threshold) <==>
              s.candidate in candidates && Eligible(fold, input, threshold, s.candidate)
              && s.distance == Distance(fold(input), fold(s.candidate))
  {
    if candidates != [] {
      ScoringMembers(fold, input, candidates[1..], threshold);
      DistanceIsMetric(fold(input), fold(candidates[0]), fold(input));
      assert candidates == [candidates[0]] + candidates[1..];
    }
  }

  /** What a user is offered: only eligible candidates, in order of distance, and no
      eligible candidate that was left out is nearer than one that was offered. */
  lemma SuggestIsNearest<C(!new), B>(fold: C -> seq<B>, input: C, candidates: seq<C>, threshold: nat, max: nat)
    ensures var r := Suggest(fold, input, candidates, threshold, max);
            && |r| <= max
            && (forall c :: c in r ==> c in candidates && Eligible(fold, input, threshold, c))
            && (forall i, j :: 0 <= i < j < |r| ==>
                 Distance(fold(input), fold(r[i])) <= Distance(fold(input), fold(r[j])))
  {
    SuggestedAt(fold, input, candidates, threshold, max);
    StableSortSorted(ByDistance<C>(), Scoring(fold, input, candidates, threshold));
  }

  /** The i-th suggestion is the i-th entry of the sorted scores. */
  lemma SuggestedAt<C(!new), B>(fold: C -> seq<B>, input: C, candidates: seq<C>, threshold: nat, max: nat)
    ensures var r := Suggest(fold, input, candidates, threshold, max);
            var sorted := Suggestions(fold, input, candidates, threshold);
            && |r| == (if max <= |sorted| then max else |sorted|)
            && forall i :: 0 <= i < |r| ==>
                 && r[i] == sorted[i].candidate && r[i] in candidates && Eligible(fold, input, threshold, r[i])
                 && sorted[i].distance == Distance(fold(input), fold(r[i]))
  {
    ScoringMembers(fold, input, candidates, threshold);
    StableSortMembers(ByDistance<C>(), Scoring(fold, input, candidates, threshold));
    var r, sorted := Suggest(fold, input, candidates, threshold, max), Suggestions(fold, input, candidates, threshold);
    forall i | 0 <= i < |r|
      ensures r[i] == sorted[i].candidate && r[i] in candidates && Eligible(fold, input, threshold, r[i])
      ensures sorted[i].distance == Distance(fold(input), fold(r[i]))
    {
      assert sorted[i] in sorted;
    }
  }

  /** An eligible candidate is among the sorted scores. */
  lemma EligibleIsScored<C(!new), B>(fold: C -> seq<B>, input: C, candidates: seq<C>, threshold: nat, c: C)
    returns (k: nat)
    requires c in candidates && Eligible(fold, input, threshold, c)
    ensures var sorted := Suggestions(fold, input, candidates, threshold);
            k < |sorted| && sorted[k] == Scored(Distance(fold(input), fold(c)), c)
  {
    hide Distance;
    ScoringMembers(fold, input, candidates, threshold);
    StableSortMembers(ByDistance<C>(), Scoring(fold, input, candidates, threshold));
    var s, sorted := Scored(Distance(fold(input), fold(c)), c), Suggestions(fold, input, candidates, threshold);
    hide Scoring, StableSort, Eligible;
    assert s in sorted;
    k :| 0 <= k < |sorted| && sorted[k] == s;
  }

  lemma SuggestLeavesOutFarther<C(!new), B>(fold: C -> seq<B>, input: C, candidates: seq<C>, threshold: nat,
                                  max: nat, c: C)
    requires c in candidates && Eligible(fold, input, threshold, c)
    requires c !in Suggest(fold, input, candidates, threshold, max)
    ensures var r := Suggest(fold, input, candidates, threshold, max);
            |r| == max
            && forall i :: 0 <= i < max ==> Distance(fold(input), fold(r[i])) <= Distance(fold(input), fold(c))
  {
    StableSortSorted(ByDistance<C>(), Scoring(fold, input, candidates, threshold));
    var r, sorted := Suggest(fold, input, candidates, threshold, max), Suggestions(fold, input, candidates, threshold);
    assert Sorted(ByDistance<C>(), sorted);
    hide Distance, Suggest, Suggestions, Eligible;
    SuggestedAt(fold, input, candidates, threshold, max);
    var k := EligibleIsScored(fold, input, candidates, threshold, c);
    assert k >= |r|;
    forall i | 0 <= i < max ensures Distance(fold(input), fold(r[i])) <= Distance(fold(input), fold(c)) {
      assert ByDistance<C>()(sorted[i], sorted[k]);
    }
  }

  // ---------------------------------------------------------------------
  // Equally distant suggestions
  // ---------------------------------------------------------------------

  ghost function AtDistance<C, B>(fold: C -> seq<B>, input: C, d: nat): C -> bool {
    (c: C) => Distance(fold(input), fold(c)) == d
  }

  ghost function EligibleAt<C, B>(fold: C -> seq<B>, input: C, threshold: nat, d: nat): C -> bool {
    (c: C) => Eligible(fold, input, threshold, c) && Distance(fold(input), fold(c)) == d
  }

  function CandidateOf<C>(): Scored<C> -> C { (s: Scored<C>) => s.candidate }

  function ScoredAt<C>(d: nat): Scored<C> -> bool { (s: Scored<C>) => s.distance == d }

  lemma {:induction false} ScoringAt<C(!new), B>(fold: C -> seq<B>, input: C, candidates: seq<C>, threshold: nat,
                                                 d: nat)
    ensures Map(CandidateOf<C>(), Filter(ScoredAt<C>(d), Scoring(fold, input, candidates, threshold)))
            == Filter(EligibleAt(fold, input, threshold, d), candidates)
  {
    if candidates != [] {
      ScoringAt(fold, input, candidates[1..], threshold, d);
      DistanceIsMetric(fold(input), fold(candidates[0]), fold(input));
      MapCons(CandidateOf<C>(), Scored(Distance(fold(input), fold(candidates[0])), candidates[0]),
              Filter(ScoredAt<C>(d), Scoring(fold, input, candidates[1..], threshold)));
    }
  }

  lemma MapCons<T, U>(f: T -> U, x: T, s: seq<T>)
    ensures Map(f, [x] + s) == [f(x)] + Map(f, s)
  {
    assert ([x] + s)[1..] == s;
  }

  lemma {:induction false} CandidatesAt<C(!new), B>(fold: C -> seq<B>, input: C, scored: seq<Scored<C>>, d: nat)
    requires forall s :: s in scored ==> s.distance == Distance(fold(input), fold(s.candidate))
    ensures Filter(AtDistance(fold, input, d), Map(CandidateOf<C>(), scored))
            == Map(CandidateOf<C>(), Filter(ScoredAt<C>(d), scored))
  {
    hide Distance;
    if scored != [] {
      var first, rest := scored[0], scored[1..];
      assert first in scored && forall s :: s in rest ==> s in scored;
      CandidatesAt(fold, input, rest, d);
      assert scored == [first] + rest;
      hide Filter, Map;
      MapCons(CandidateOf<C>(), first, rest);
      FilterOfCons(AtDistance(fold, input, d), first.candidate, Map(CandidateOf<C>(), rest));
      FilterOfCons(ScoredAt<C>(d), first, rest);
      MapCons(CandidateOf<C>(), first, Filter(ScoredAt<C>(d), rest));
    }
  }

  lemma SuggestIsPrefix<C, B>(fold: C -> seq<B>, input: C, candidates: seq<C>, threshold: nat, max: nat)
    ensures Suggest(fold, input, candidates, threshold, max)
            <= Map(CandidateOf<C>(), Suggestions(fold, input, candidates, threshold))
  {
    hide Suggestions;
    var sorted := Suggestions(fold, input, candidates, threshold);
    if max <= |sorted| {
      assert sorted == sorted[..max] + sorted[max..];
      MapConcat(CandidateOf<C>(), sorted[..max], sorted[max..]);
    }
  }

  lemma FilterOfPrefix<T(!new)>(p: T -> bool, r: seq<T>, s: seq<T>)
    requires r <= s
    ensures Filter(p, r) <= Filter(p, s)
  {
    assert s == r + s[|r|..];
    FilterConcat(p, r, s[|r|..]);
  }

  /** The sorted scores hold the distances of their candidates. */
  lemma SortedScores<C(!new), B>(fold: C -> seq<B>, input: C, candidates: seq<C>, threshold: nat)
    ensures forall s :: s in Suggestions(fold, input, candidates, threshold) ==>
              s.distance == Distance(fold(input), fold(s.candidate))
  {
    ScoringMembers(fold, input, candidates, threshold);
    StableSortMembers(ByDistance<C>(), Scoring(fold, input, candidates, threshold));
  }

  /** Equally distant suggestions come in the order of the candidates, the first of them if not all. */
  lemma SuggestKeepsOrder<C(!new), B>(fold: C -> seq<B>, input: C, candidates: seq<C>, threshold: nat, max: nat, d: nat)
    ensures Filter(AtDistance(fold, input, d), Suggest(fold, input, candidates, threshold, max))
            <= Filter(EligibleAt(fold, input, threshold, d), candidates)
  {
    hide *;
    var sorted := Suggestions(fold, input, candidates, threshold);
    SuggestIsPrefix(fold, input, candidates, threshold, max);
    FilterOfPrefix(AtDistance(fold, input, d), Suggest(fold, input, candidates, threshold, max),
                   Map(CandidateOf<C>(), sorted));
    SortedScores(fold, input, candidates, threshold);
    CandidatesAt(fold, input, sorted, d);
    SortedAt(fold, input, candidates, threshold, d);
    ScoringAt(fold, input, candidates, threshold, d);
  }

  lemma SortedAt<C(!new), B>(fold: C -> seq<B>, input: C, candidates: seq<C>, threshold: nat, d: nat)
    ensures Filter(ScoredAt<C>(d), Suggestions(fold, input, candidates, threshold))
            == Filter(ScoredAt<C>(d), Scoring(fold, input, candidates, threshold))
  {
    var scoring, le := Scoring(fold, input, candidates, threshold), ByDistance<C>();
    var f := Filter(ScoredAt<C>(d), scoring);
    assert TotalPreorder(le);
    SortFilterCommute(le, ScoredAt<C>(d), scoring);
    assert Sorted(le, f) by {
      forall i, j | 0 <= i < j < |f| ensures le(f[i], f[j]) { assert f[i] in f && f[j] in f; }
    }
    SortOfSorted(le, f);
  }
}
