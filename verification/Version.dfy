/**
 Content-addressed model versions
 (crates/phlo-transform-core/src/version.rs).

 SHA-256 is a parameter `sha`; what is assumed of it is that it does not
 collide and prints as one line. The framing of what is hashed is kept, and its
 injectivity is proved.
 */
module Version {
  import opened Collections
  import opened Ordering
  import opened Identity

  const COMPILER_SEMANTICS_VERSION := "3"

  /** A name and its value: a dependency's version, or a source's state. */
  type Pair = (string, string)

  datatype VersionInputs = VersionInputs(
    canonicalSql: string,
    config: string,
    contract: string,
    dependencies: seq<Pair>,
    sources: seq<Pair>,
    target: string)

  datatype ModelVersion = ModelVersion(
    hash: string,
    sqlHash: string,
    configHash: string,
    contractHash: string,
    dependencyHash: string,
    sourceStateHash: string,
    compilerVersion: string,
    targetHash: string)

  /** No two texts have one digest (there is a way back), and digests are one line. */
  ghost predicate IsDigest(sha: string -> string) {
    exists preimage: string -> string :: Undoes(preimage, sha)
  }

  ghost predicate Undoes(preimage: string -> string, sha: string -> string) {
    forall text :: preimage(sha(text)) == text && Free(sha(text), '\n')
  }

  lemma DigestInjective(sha: string -> string, a: string, b: string)
    requires IsDigest(sha) && sha(a) == sha(b)
    ensures a == b
  {
  }

  predicate PairLess(a: Pair, b: Pair) {
    StringLess(a.0, b.0) || (a.0 == b.0 && StringLess(a.1, b.1))
  }

  function Line(pair: Pair): string {
    pair.0 + "=" + pair.1
  }

  function Lines(pairs: seq<Pair>): (lines: seq<string>)
    ensures |lines| == |pairs| && forall i :: 0 <= i < |pairs| ==> lines[i] == Line(pairs[i])
  {
    if pairs == [] then [] else [Line(pairs[0])] + Lines(pairs[1..])
  }

  /** Every line, followed by a newline. */
  function Framed(lines: seq<string>): string {
    if lines == [] then "" else lines[0] + "\n" + Framed(lines[1..])
  }

  function PairsHash(sha: string -> string, pairs: seq<Pair>): string {
    sha(Framed(Lines(SortedSet(PairLess, pairs))))
  }

  function Components(v: ModelVersion): seq<Pair> {
    [
      ("sql", v.sqlHash), ("config", v.configHash), ("contract", v.contractHash),
      ("dependencies", v.dependencyHash), ("sources", v.sourceStateHash),
      ("compiler", v.compilerVersion), ("target", v.targetHash)
    ]
  }

  function VersionOf(sha: string -> string, inputs: VersionInputs): ModelVersion {
    var v := ModelVersion(
      "", sha(inputs.canonicalSql), sha(inputs.config), sha(inputs.contract),
      PairsHash(sha, inputs.dependencies), PairsHash(sha, inputs.sources),
      COMPILER_SEMANTICS_VERSION, sha(inputs.target));
    v.(hash := sha(Framed(Lines(Components(v)))))
  }

  // -- Computing a version -----------------------------------------------------------------

  method HashLines(sha: string -> string, lines: seq<string>) returns (hash: string)
    ensures hash == sha(Framed(lines))
  {
    var hashed := "";
    for i := 0 to |lines|
      invariant hashed + Framed(lines[i..]) == Framed(lines)
    {
      ghost var rest := Framed(lines[i + 1..]);
      assert lines[i..][1..] == lines[i + 1..];
      assert hashed + (lines[i] + "\n" + rest) == hashed + lines[i] + "\n" + rest;
      hashed := hashed + lines[i];
      hashed := hashed + "\n";
    }
    assert hashed + Framed(lines[|lines|..]) == hashed;
    return sha(hashed);
  }

  method ComputeVersion(sha: string -> string, inputs: VersionInputs) returns (version: ModelVersion)
    ensures version == VersionOf(sha, inputs)
  {
    var dependencies := Sort(PairLess, inputs.dependencies);
    dependencies := Dedup(dependencies);
    var dependencyHash := HashLines(sha, Lines(dependencies));
    var sources := Sort(PairLess, inputs.sources);
    sources := Dedup(sources);
    var sourceStateHash := HashLines(sha, Lines(sources));
    version := ModelVersion(
      "", sha(inputs.canonicalSql), sha(inputs.config), sha(inputs.contract), dependencyHash, sourceStateHash,
      COMPILER_SEMANTICS_VERSION, sha(inputs.target));
    var hash := HashLines(sha, Lines(Components(version)));
    version := version.(hash := hash);
  }

  // -- The framing is injective ------------------------------------------------------------------

  ghost predicate OneLineEach(lines: seq<string>) {
    forall i :: 0 <= i < |lines| ==> Free(lines[i], '\n')
  }

  lemma {:induction false} FramedSplits(lines: seq<string>)
    requires OneLineEach(lines)
    ensures Split(Framed(lines), '\n') == lines + [""]
  {
    if lines != [] {
      FramedSplits(lines[1..]);
      SplitHead(lines[0], Framed(lines[1..]), '\n');
      assert lines == [lines[0]] + lines[1..];
    }
  }

  lemma FramedInjective(a: seq<string>, b: seq<string>)
    requires OneLineEach(a) && OneLineEach(b) && Framed(a) == Framed(b)
    ensures a == b
  {
    FramedSplits(a);
    FramedSplits(b);
    assert a == (a + [""])[..|a|] && b == (b + [""])[..|b|];
  }

  /** Two names whose lines can be confused: one goes on with `=` where the other ends. */
  predicate Confusable(a: string, b: string) {
    a + "=" <= b || b + "=" <= a
  }

  lemma LongerName(a: Pair, b: Pair)
    requires Line(a) == Line(b) && |a.0| < |b.0|
    ensures a.0 + "=" <= b.0
  {
    var n := |a.0| + 1;
    assert Line(a)[..n] == a.0 + "=";
    assert Line(b)[..n] == b.0[..n];
  }

  lemma SameLine(a: Pair, b: Pair)
    requires Line(a) == Line(b) && |a.0| == |b.0|
    ensures a == b
  {
    var n := |a.0|;
    assert Line(a)[..n] == a.0 && Line(b)[..n] == b.0;
    assert Line(a)[n + 1..] == a.1 && Line(b)[n + 1..] == b.1;
  }

  /** Different names give the same line for some values exactly when they are confusable. */
  lemma LinesMeetExactly(a: string, b: string)
    requires a != b && Free(a, '\n') && Free(b, '\n')
    ensures (exists v, w :: Free(v, '\n') && Free(w, '\n') && Line((a, v)) == Line((b, w))) <==> Confusable(a, b)
  {
    if v, w :| Free(v, '\n') && Free(w, '\n') && Line((a, v)) == Line((b, w)) {
      if |a| == |b| {
        SameLine((a, v), (b, w));
      } else if |a| < |b| {
        LongerName((a, v), (b, w));
      } else {
        LongerName((b, w), (a, v));
      }
    }
    if Confusable(a, b) {
      var shorter, longer := if a + "=" <= b then a else b, if a + "=" <= b then b else a;
      var rest := longer[|shorter| + 1..];
      assert longer == shorter + "=" + rest;
      assert Line((shorter, rest + "=")) == Line((longer, ""));
      assert Free(rest + "=", '\n');
      assert Line((a, if a == shorter then rest + "=" else "")) == Line((b, if a == shorter then "" else rest + "="));
    }
  }

  ghost predicate Framable(pairs: set<Pair>) {
    && (forall p :: p in pairs ==> Free(p.0, '\n') && Free(p.1, '\n'))
    && forall p, q :: p in pairs && q in pairs && p.0 != q.0 ==> !Confusable(p.0, q.0)
  }

  lemma LongerNameHasEquals(a: string, b: string)
    requires a + "=" <= b
    ensures !Free(b, '=')
  {
    assert b[|a|] == (a + "=")[|a|] == '=';
  }

  /** Names without `=` are never confusable. */
  lemma PlainNamesFramable(pairs: set<Pair>)
    requires forall p :: p in pairs ==> Free(p.0, '\n') && Free(p.1, '\n') && Free(p.0, '=')
    ensures Framable(pairs)
  {
    forall p, q | p in pairs && q in pairs ensures !Confusable(p.0, q.0) {
      if p.0 + "=" <= q.0 {
        LongerNameHasEquals(p.0, q.0);
      }
      if q.0 + "=" <= p.0 {
        LongerNameHasEquals(q.0, p.0);
      }
    }
  }

  lemma LineInjective(pairs: set<Pair>, a: Pair, b: Pair)
    requires Framable(pairs) && a in pairs && b in pairs && Line(a) == Line(b)
    ensures a == b
  {
    if |a.0| == |b.0| {
      SameLine(a, b);
    } else if |a.0| < |b.0| {
      LongerName(a, b);
    } else {
      LongerName(b, a);
    }
  }

  lemma LineIsOneLine(pair: Pair)
    requires Free(pair.0, '\n') && Free(pair.1, '\n')
    ensures Free(Line(pair), '\n')
  {
  }

  lemma FramedPairsInjective(all: set<Pair>, a: seq<Pair>, b: seq<Pair>)
    requires Framable(all) && Elements(a) <= all && Elements(b) <= all
    requires Framed(Lines(a)) == Framed(Lines(b))
    ensures a == b
  {
    forall i | 0 <= i < |a| ensures a[i] in all && Free(Lines(a)[i], '\n') {
      assert a[i] in Elements(a);
      LineIsOneLine(a[i]);
    }
    forall i | 0 <= i < |b| ensures b[i] in all && Free(Lines(b)[i], '\n') {
      assert b[i] in Elements(b);
      LineIsOneLine(b[i]);
    }
    FramedInjective(Lines(a), Lines(b));
    assert |a| == |Lines(a)| == |Lines(b)| == |b|;
    forall i | 0 <= i < |a| ensures a[i] == b[i] {
      assert Line(a[i]) == Lines(a)[i] == Lines(b)[i] == Line(b[i]);
      LineInjective(all, a[i], b[i]);
    }
  }

  lemma PairLessTotal()
    ensures StrictTotal(PairLess)
  {
    StringLessTotal();
  }

  /** The hash of named values tells exactly which values have which names. */
  lemma PairsHashExactly(sha: string -> string, a: seq<Pair>, b: seq<Pair>)
    requires IsDigest(sha) && Framable(Elements(a) + Elements(b))
    ensures PairsHash(sha, a) == PairsHash(sha, b) <==> Elements(a) == Elements(b)
  {
    PairLessTotal();
    SortedSetCanonical(PairLess, a, b);
    SortedSetIsSet(PairLess, a);
    SortedSetIsSet(PairLess, b);
    if PairsHash(sha, a) == PairsHash(sha, b) {
      DigestInjective(sha, Framed(Lines(SortedSet(PairLess, a))), Framed(Lines(SortedSet(PairLess, b))));
      FramedPairsInjective(Elements(a) + Elements(b), SortedSet(PairLess, a), SortedSet(PairLess, b));
    }
  }

  // -- What a version says ----------------------------------------------------------------------------

  /** The same inputs, dependencies and sources read as sets. */
  predicate SameInputs(a: VersionInputs, b: VersionInputs) {
    && a.canonicalSql == b.canonicalSql && a.config == b.config && a.contract == b.contract && a.target == b.target
    && Elements(a.dependencies) == Elements(b.dependencies) && Elements(a.sources) == Elements(b.sources)
  }

  lemma {:induction false} LabelledLinesInjective(a: seq<Pair>, b: seq<Pair>)
    requires |a| == |b| && forall i :: 0 <= i < |a| ==> a[i].0 == b[i].0
    requires OneLineEach(Lines(a)) && OneLineEach(Lines(b)) && Framed(Lines(a)) == Framed(Lines(b))
    ensures a == b
  {
    FramedInjective(Lines(a), Lines(b));
    forall i | 0 <= i < |a| ensures a[i] == b[i] {
      assert Line(a[i]) == Lines(a)[i] == Lines(b)[i] == Line(b[i]);
      SameLine(a[i], b[i]);
    }
  }

  ghost predicate OneLinePairs(pairs: seq<Pair>) {
    forall i :: 0 <= i < |pairs| ==> Free(pairs[i].0, '\n') && Free(pairs[i].1, '\n')
  }

  lemma LinesAreOneLineEach(pairs: seq<Pair>)
    requires OneLinePairs(pairs)
    ensures OneLineEach(Lines(pairs))
  {
    forall i | 0 <= i < |pairs| ensures Free(Lines(pairs)[i], '\n') {
      LineIsOneLine(pairs[i]);
    }
  }

  lemma ComponentsTell(u: ModelVersion, v: ModelVersion)
    requires Components(u) == Components(v) && u.hash == v.hash
    ensures u == v
  {
    var p, q := Components(u), Components(v);
    assert p[0] == q[0] && p[1] == q[1] && p[2] == q[2] && p[3] == q[3] && p[4] == q[4] && p[5] == q[5] && p[6] == q[6];
  }

  lemma SameLabels(u: ModelVersion, v: ModelVersion)
    ensures |Components(u)| == |Components(v)|
    ensures forall i :: 0 <= i < |Components(u)| ==> Components(u)[i].0 == Components(v)[i].0
  {
  }

  predicate OneLineFields(v: ModelVersion) {
    && Free(v.sqlHash, '\n') && Free(v.configHash, '\n') && Free(v.contractHash, '\n')
    && Free(v.dependencyHash, '\n') && Free(v.sourceStateHash, '\n')
    && Free(v.compilerVersion, '\n') && Free(v.targetHash, '\n')
  }

  lemma FieldsAreOneLineEach(v: ModelVersion)
    requires OneLineFields(v)
    ensures OneLinePairs(Components(v))
  {
    var pairs := Components(v);
    forall i | 0 <= i < |pairs| ensures Free(pairs[i].0, '\n') && Free(pairs[i].1, '\n') {
      if i < 3 {
        assert pairs[i] == if i == 0 then ("sql", v.sqlHash) else if i == 1 then ("config", v.configHash)
                           else ("contract", v.contractHash);
      } else {
        assert pairs[i] == if i == 3 then ("dependencies", v.dependencyHash)
                           else if i == 4 then ("sources", v.sourceStateHash)
                           else if i == 5 then ("compiler", v.compilerVersion) else ("target", v.targetHash);
      }
    }
  }

  lemma FramedTellsComponents(u: ModelVersion, v: ModelVersion)
    requires OneLineFields(u) && OneLineFields(v) && u.hash == v.hash
    requires Framed(Lines(Components(u))) == Framed(Lines(Components(v)))
    ensures u == v
  {
    FieldsAreOneLineEach(u);
    FieldsAreOneLineEach(v);
    LinesAreOneLineEach(Components(u));
    LinesAreOneLineEach(Components(v));
    SameLabels(u, v);
    LabelledLinesInjective(Components(u), Components(v));
    ComponentsTell(u, v);
  }

  lemma HashTellsComponents(sha: string -> string, a: VersionInputs, b: VersionInputs)
    requires IsDigest(sha) && VersionOf(sha, a).hash == VersionOf(sha, b).hash
    ensures VersionOf(sha, a) == VersionOf(sha, b)
  {
    var u, v := VersionOf(sha, a), VersionOf(sha, b);
    assert Components(u) == Components(u.(hash := "")) && Components(v) == Components(v.(hash := ""));
    DigestInjective(sha, Framed(Lines(Components(u))), Framed(Lines(Components(v))));
    FramedTellsComponents(u, v);
  }

  /** Two models have one version exactly when all version inputs agree. */
  lemma VersionExactly(sha: string -> string, a: VersionInputs, b: VersionInputs)
    requires IsDigest(sha)
    requires Framable(Elements(a.dependencies) + Elements(b.dependencies))
    requires Framable(Elements(a.sources) + Elements(b.sources))
    ensures VersionOf(sha, a).hash == VersionOf(sha, b).hash <==> SameInputs(a, b)
  {
    PairsHashExactly(sha, a.dependencies, b.dependencies);
    PairsHashExactly(sha, a.sources, b.sources);
    if VersionOf(sha, a).hash == VersionOf(sha, b).hash {
      HashTellsComponents(sha, a, b);
      DigestInjective(sha, a.canonicalSql, b.canonicalSql);
      DigestInjective(sha, a.config, b.config);
      DigestInjective(sha, a.contract, b.contract);
      DigestInjective(sha, a.target, b.target);
    }
  }

  /** A `=` in a source's name lets two different observations share a version. */
  lemma EqualsInNameCollides(sha: string -> string, inputs: VersionInputs)
    ensures var a, b := inputs.(sources := [("s=t", "1")]), inputs.(sources := [("s", "t=1")]);
            VersionOf(sha, a) == VersionOf(sha, b) && !SameInputs(a, b)
  {
    var a, b: seq<Pair> := [("s=t", "1")], [("s", "t=1")];
    assert Line(a[0]) == Line(b[0]);
    assert Lines(a) == Lines(b);
    assert ("s=t", "1") in Elements(a) && ("s=t", "1") !in Elements(b);
  }
}
