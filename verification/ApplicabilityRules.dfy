// Whether a memory applies to the current scope, decided from full artifact
// references or from fixed-width fingerprints of them.
module ApplicabilityRules {
  import opened Basics
  import opened Domain

  // --- digests ----------------------------------------------------------

  // A digest is represented by the framed bytes it is taken over, so that two
  // digests are equal exactly when their inputs are: blake3 is injective here.
  type Bytes = seq<nat>

  function Octets(text: string): Bytes {
    seq(|text|, i requires 0 <= i < |text| => text[i] as int)
  }

  // `n` as `width` little-endian octets.
  function LittleEndian(n: nat, width: nat): (octets: Bytes)
    ensures |octets| == width
  {
    if width == 0 then [] else [n % 256] + LittleEndian(n / 256, width - 1)
  }

  function Pow256(width: nat): nat { if width == 0 then 1 else 256 * Pow256(width - 1) }

  function Framed(value: Bytes): Bytes { LittleEndian(|value|, 8) + value }

  const IDENTITY_DOMAIN: string := "super-mem:artifact-identity:v1"
  const CONTENT_DOMAIN: string := "super-mem:artifact-content:v1"

  function SymbolMaterial(symbol: Option<string>): Bytes {
    match symbol
    case Some(text) => [1] + Framed(Octets(text))
    case None => [0]
  }

  function IdentityDigest(repoId: string, path: string, symbol: Option<string>): Bytes {
    Framed(Octets(IDENTITY_DOMAIN)) + (Framed(Octets(repoId)) + (Framed(Octets(path)) + SymbolMaterial(symbol)))
  }

  function ContentDigest(contentHash: string): Bytes {
    Framed(Octets(CONTENT_DOMAIN)) + Framed(Octets(contentHash))
  }

  // Lengths are written as 64-bit integers.
  ghost predicate Frameable(text: string) { |text| < Pow256(8) }

  lemma {:induction false} LittleEndianInjective(a: nat, b: nat, width: nat)
    requires a < Pow256(width) && b < Pow256(width)
    requires LittleEndian(a, width) == LittleEndian(b, width)
    ensures a == b
  {
    if width > 0 {
      assert LittleEndian(a, width)[0] == LittleEndian(b, width)[0];
      assert LittleEndian(a, width)[1..] == LittleEndian(b, width)[1..];
      LittleEndianInjective(a / 256, b / 256, width - 1);
    }
  }

  lemma {:induction false} OctetsInjective(a: string, b: string)
    requires Octets(a) == Octets(b)
    ensures a == b
  {
    assert |Octets(a)| == |a| && |Octets(b)| == |b|;
    forall i | 0 <= i < |a| ensures a[i] == b[i] {
      assert Octets(a)[i] == Octets(b)[i];
    }
  }

  // Length framing makes concatenation unambiguous.
  lemma FramedSplits(a: Bytes, restA: Bytes, b: Bytes, restB: Bytes)
    requires |a| < Pow256(8) && |b| < Pow256(8)
    requires Framed(a) + restA == Framed(b) + restB
    ensures a == b && restA == restB
  {
    var whole := Framed(a) + restA;
    assert whole[..8] == LittleEndian(|a|, 8);
    assert (Framed(b) + restB)[..8] == LittleEndian(|b|, 8);
    LittleEndianInjective(|a|, |b|, 8);
    assert whole[8..8 + |a|] == a;
    assert (Framed(b) + restB)[8..8 + |b|] == b;
    assert whole[8 + |a|..] == restA;
    assert (Framed(b) + restB)[8 + |b|..] == restB;
  }

  lemma FramedInjective(a: Bytes, b: Bytes)
    requires |a| < Pow256(8) && |b| < Pow256(8) && Framed(a) == Framed(b)
    ensures a == b
  {
    assert Framed(a) + [] == Framed(b) + [];
    FramedSplits(a, [], b, []);
  }

  // The identity digest separates every path and optional symbol of every repository.
  lemma IdentityDigestInjective(
    repoA: string, pathA: string, symbolA: Option<string>, repoB: string, pathB: string, symbolB: Option<string>)
    requires Frameable(repoA) && Frameable(pathA) && (symbolA.Some? ==> Frameable(symbolA.value))
    requires Frameable(repoB) && Frameable(pathB) && (symbolB.Some? ==> Frameable(symbolB.value))
    ensures IdentityDigest(repoA, pathA, symbolA) == IdentityDigest(repoB, pathB, symbolB)
        <==> repoA == repoB && pathA == pathB && symbolA == symbolB
  {
    hide Framed, Pow256;
    if IdentityDigest(repoA, pathA, symbolA) == IdentityDigest(repoB, pathB, symbolB) {
      var tailA := Framed(Octets(pathA)) + SymbolMaterial(symbolA);
      var tailB := Framed(Octets(pathB)) + SymbolMaterial(symbolB);
      DomainsFit();
      FramedSplits(Octets(IDENTITY_DOMAIN), Framed(Octets(repoA)) + tailA, Octets(IDENTITY_DOMAIN),
          Framed(Octets(repoB)) + tailB);
      FramedSplits(Octets(repoA), tailA, Octets(repoB), tailB);
      FramedSplits(Octets(pathA), SymbolMaterial(symbolA), Octets(pathB), SymbolMaterial(symbolB));
      OctetsInjective(repoA, repoB);
      OctetsInjective(pathA, pathB);
      assert SymbolMaterial(symbolA)[0] == SymbolMaterial(symbolB)[0];
      if symbolA.Some? {
        assert SymbolMaterial(symbolA)[1..] == Framed(Octets(symbolA.value));
        assert SymbolMaterial(symbolB)[1..] == Framed(Octets(symbolB.value));
        FramedInjective(Octets(symbolA.value), Octets(symbolB.value));
        OctetsInjective(symbolA.value, symbolB.value);
      }
    }
  }

  lemma DomainsFit()
    ensures |IDENTITY_DOMAIN| < Pow256(8) && |CONTENT_DOMAIN| < Pow256(8)
  {
    assert Pow256(8) == 256 * Pow256(7);
    assert Pow256(7) >= 1 by { PowPositive(7); }
  }

  lemma {:induction false} PowPositive(width: nat)
    ensures Pow256(width) >= 1
  {
    if width > 0 { PowPositive(width - 1); }
  }

  lemma ContentDigestInjective(a: string, b: string)
    requires Frameable(a) && Frameable(b)
    ensures ContentDigest(a) == ContentDigest(b) <==> a == b
  {
    hide Framed, Pow256;
    if ContentDigest(a) == ContentDigest(b) {
      DomainsFit();
      FramedSplits(Octets(CONTENT_DOMAIN), Framed(Octets(a)), Octets(CONTENT_DOMAIN), Framed(Octets(b)));
      FramedInjective(Octets(a), Octets(b));
      OctetsInjective(a, b);
    }
  }

  // --- comparisons ------------------------------------------------------

  datatype ArtifactFingerprint = ArtifactFingerprint(identity: Bytes, content: Bytes)

  // `complete` is false when storage held more artifacts than staging retained.
  datatype ArtifactFingerprintSet = ArtifactFingerprintSet(fingerprints: seq<ArtifactFingerprint>, complete: bool)
  {
    predicate IsFullyVerifiedBy(current: ArtifactFingerprintSet) {
      && complete
      && fingerprints != []
      && forall i | 0 <= i < |fingerprints| :: fingerprints[i] in current.fingerprints
    }
  }

  datatype ArtifactComparison = ArtifactComparison(mismatched: bool, fullyVerified: bool, complete: bool)

  function FingerprintOf(artifact: ArtifactRef): ArtifactFingerprint
    requires artifact.contentHash.Some?
  {
    ArtifactFingerprint(IdentityDigest(artifact.repoId, artifact.path, artifact.symbol),
                        ContentDigest(artifact.contentHash.value))
  }

  function Fingerprints(artifacts: seq<ArtifactRef>): seq<ArtifactFingerprint> {
    if artifacts == [] then []
    else (if artifacts[0].contentHash.Some? then [FingerprintOf(artifacts[0])] else []) + Fingerprints(artifacts[1..])
  }

  function FingerprintArtifacts(artifacts: seq<ArtifactRef>): ArtifactFingerprintSet {
    ArtifactFingerprintSet(Fingerprints(artifacts), true)
  }

  predicate SameIdentity(a: ArtifactRef, b: ArtifactRef) {
    a.repoId == b.repoId && a.path == b.path && a.symbol == b.symbol
  }

  function FindRef(wanted: ArtifactRef, current: seq<ArtifactRef>): (found: Option<ArtifactRef>)
    ensures found.Some? ==> found.value in current && SameIdentity(wanted, found.value)
    ensures found.None? ==> forall c | c in current :: !SameIdentity(wanted, c)
  {
    if current == [] then None
    else if SameIdentity(wanted, current[0]) then Some(current[0])
    else FindRef(wanted, current[1..])
  }

  function FindFingerprint(wanted: ArtifactFingerprint, current: seq<ArtifactFingerprint>):
    (found: Option<ArtifactFingerprint>)
    ensures found.Some? ==> found.value in current && found.value.identity == wanted.identity
    ensures found.None? ==> forall c | c in current :: c.identity != wanted.identity
  {
    if current == [] then None
    else if current[0].identity == wanted.identity then Some(current[0])
    else FindFingerprint(wanted, current[1..])
  }

  // A historical artifact contradicts the current ones.
  predicate RefMismatch(historical: ArtifactRef, current: seq<ArtifactRef>) {
    var found := FindRef(historical, current);
    && historical.contentHash.Some? && found.Some? && found.value.contentHash.Some?
    && found.value.contentHash != historical.contentHash
  }

  predicate RefVerified(historical: ArtifactRef, current: seq<ArtifactRef>) {
    var found := FindRef(historical, current);
    && historical.contentHash.Some? && found.Some? && found.value.contentHash == historical.contentHash
  }

  predicate FingerprintMismatch(historical: ArtifactFingerprint, current: seq<ArtifactFingerprint>) {
    var found := FindFingerprint(historical, current);
    found.Some? && found.value.content != historical.content
  }

  predicate FingerprintVerified(historical: ArtifactFingerprint, current: seq<ArtifactFingerprint>) {
    FindFingerprint(historical, current) == Some(historical)
  }

  // What the two counting loops decide.
  function CompareRefs(memory: seq<ArtifactRef>, current: seq<ArtifactRef>): ArtifactComparison {
    var mismatched := exists a | a in memory :: RefMismatch(a, current);
    ArtifactComparison(
      mismatched,
      && !mismatched && (exists a | a in memory :: a.contentHash.Some?)
      && (forall a | a in memory && a.contentHash.Some? :: RefVerified(a, current)),
      true)
  }

  function CompareFingerprints(memory: ArtifactFingerprintSet, current: ArtifactFingerprintSet): ArtifactComparison {
    var mismatched := exists f | f in memory.fingerprints :: FingerprintMismatch(f, current.fingerprints);
    ArtifactComparison(
      mismatched,
      && !mismatched && memory.complete && memory.fingerprints != []
      && (forall f | f in memory.fingerprints :: FingerprintVerified(f, current.fingerprints)),
      memory.complete)
  }

  method CompareArtifactRefs(memory: seq<ArtifactRef>, current: seq<ArtifactRef>) returns (r: ArtifactComparison)
    ensures r == CompareRefs(memory, current)
  {
    var verifiable, verified := 0, 0;
    for i := 0 to |memory|
      invariant verified <= verifiable
      invariant forall a | a in memory[..i] :: !RefMismatch(a, current)
      invariant verifiable > 0 <==> exists a | a in memory[..i] :: a.contentHash.Some?
      invariant verified == verifiable
            <==> forall a | a in memory[..i] && a.contentHash.Some? :: RefVerified(a, current)
    {
      var historical := memory[i];
      assert memory[..i + 1] == memory[..i] + [historical];
      if historical.contentHash.Some? {
        verifiable := verifiable + 1;
        var found := FindRef(historical, current);
        if found.Some? && found.value.contentHash.Some? {
          if found.value.contentHash != historical.contentHash {
            assert RefMismatch(historical, current);
            return ArtifactComparison(true, false, true);
          }
          verified := verified + 1;
        }
      }
    }
    assert memory[..|memory|] == memory;
    r := ArtifactComparison(false, verifiable > 0 && verified == verifiable, true);
  }

  method CompareArtifactFingerprints(memory: ArtifactFingerprintSet, current: ArtifactFingerprintSet)
    returns (r: ArtifactComparison)
    ensures r == CompareFingerprints(memory, current)
  {
    var fs := memory.fingerprints;
    var verified := 0;
    for i := 0 to |fs|
      invariant 0 <= verified <= i
      invariant forall f | f in fs[..i] :: !FingerprintMismatch(f, current.fingerprints)
      invariant verified == i <==> forall f | f in fs[..i] :: FingerprintVerified(f, current.fingerprints)
    {
      var historical := fs[i];
      assert fs[..i + 1] == fs[..i] + [historical];
      assert historical in fs[..i + 1];
      var found := FindFingerprint(historical, current.fingerprints);
      if found.Some? {
        if found.value.content != historical.content {
          assert FingerprintMismatch(historical, current.fingerprints);
          return ArtifactComparison(true, false, memory.complete);
        }
        verified := verified + 1;
      }
    }
    assert fs[..|fs|] == fs;
    r := ArtifactComparison(false, memory.complete && fs != [] && verified == |fs|, memory.complete);
  }

  // --- classification ---------------------------------------------------

  type GitResolver = (string, string, string) -> GitRelation

  function GitVerdict(memory: RepositoryContext, current: RepositoryContext, git: GitResolver): Applicability {
    if current.root.Some? && memory.headOid.Some? && current.headOid.Some? then
      match git(current.root.value, memory.headOid.value, current.headOid.value)
      case Same => Exact
      case Ancestor(_) => Compatible
      case Descendant(_) | Diverged(_, _) => Divergent
      case Unknown => Unversioned
    else if memory.branch.Some? && current.branch.Some? && memory.branch != current.branch then Divergent
    else Unversioned
  }

  function Classify(memory: Scope, current: Scope, comparison: ArtifactComparison, git: GitResolver): Applicability {
    if memory.namespace != current.namespace then Inapplicable
    else if memory.workspaceId.Some? && current.workspaceId.Some? && memory.workspaceId != current.workspaceId
    then Inapplicable
    else if memory.workspaceId.Some? && current.workspaceId.None? then Inapplicable
    else if memory.repository.Some? && current.repository.None? then Inapplicable
    else if memory.repository.None? || current.repository.None? then Unversioned
    else
      var memoryRepo, currentRepo := memory.repository.value, current.repository.value;
      if memoryRepo.repoId != currentRepo.repoId then Inapplicable
      else if comparison.mismatched then Stale
      else if memoryRepo.dirtyHash != currentRepo.dirtyHash
              && (memoryRepo.dirtyHash.Some? || currentRepo.dirtyHash.Some?)
      then if comparison.fullyVerified then Exact else Stale
      else if comparison.fullyVerified then Exact
      else
        var verdict := GitVerdict(memoryRepo, currentRepo, git);
        if !comparison.complete && verdict == Exact then Unversioned else verdict
  }

  function ClassifyRefs(
    memory: Scope, current: Scope, memoryArtifacts: seq<ArtifactRef>, currentArtifacts: seq<ArtifactRef>,
    git: GitResolver): Applicability
  {
    Classify(memory, current, CompareRefs(memoryArtifacts, currentArtifacts), git)
  }

  function ClassifyFingerprints(
    memory: Scope, current: Scope, memoryArtifacts: ArtifactFingerprintSet,
    currentArtifacts: ArtifactFingerprintSet, git: GitResolver): Applicability
  {
    Classify(memory, current, CompareFingerprints(memoryArtifacts, currentArtifacts), git)
  }

  // --- the two comparisons agree ----------------------------------------

  ghost predicate FrameableRef(a: ArtifactRef) {
    && Frameable(a.repoId) && Frameable(a.path) && (a.symbol.Some? ==> Frameable(a.symbol.value))
    && (a.contentHash.Some? ==> Frameable(a.contentHash.value))
  }

  ghost predicate AllFrameable(artifacts: seq<ArtifactRef>) {
    forall a | a in artifacts :: FrameableRef(a)
  }

  // Wherever an identity has a hashed entry, its first entry is hashed.
  predicate HashedFirst(current: seq<ArtifactRef>) {
    forall c | c in current && c.contentHash.Some? :: FindRef(c, current).value.contentHash.Some?
  }

  ghost predicate DistinctIdentities(current: seq<ArtifactRef>) {
    forall i, j | 0 <= i < j < |current| :: !SameIdentity(current[i], current[j])
  }

  lemma DistinctIsHashedFirst(current: seq<ArtifactRef>)
    requires DistinctIdentities(current)
    ensures HashedFirst(current)
  {
    forall c | c in current && c.contentHash.Some? ensures FindRef(c, current) == Some(c) {
      var found := FindRef(c, current).value;
      var i :| 0 <= i < |current| && current[i] == c;
      var j :| 0 <= j < |current| && current[j] == found;
      assert SameIdentity(current[i], current[j]) && SameIdentity(current[j], current[i]);
    }
  }

  // The first hashed entry, which is what the fingerprint form can see.
  function FindHashed(wanted: ArtifactRef, current: seq<ArtifactRef>): (found: Option<ArtifactRef>)
    ensures found.Some? ==> found.value in current && SameIdentity(wanted, found.value) && found.value.contentHash.Some?
  {
    if current == [] then None
    else if SameIdentity(wanted, current[0]) && current[0].contentHash.Some? then Some(current[0])
    else FindHashed(wanted, current[1..])
  }

  lemma {:induction false} FindFingerprintSeesHashed(wanted: ArtifactRef, current: seq<ArtifactRef>)
    requires wanted.contentHash.Some? && FrameableRef(wanted) && AllFrameable(current)
    ensures FindFingerprint(FingerprintOf(wanted), Fingerprints(current))
         == var found := FindHashed(wanted, current);
            if found.Some? then Some(FingerprintOf(found.value)) else None
  {
    hide IdentityDigest, ContentDigest;
    if current != [] {
      var first := current[0];
      FindFingerprintSeesHashed(wanted, current[1..]);
      assert first in current;
      IdentityDigestInjective(wanted.repoId, wanted.path, wanted.symbol, first.repoId, first.path, first.symbol);
      if first.contentHash.Some? {
        var all := Fingerprints(current);
        assert all[0] == FingerprintOf(first) && all[1..] == Fingerprints(current[1..]);
      } else {
        assert Fingerprints(current) == Fingerprints(current[1..]);
      }
    }
  }

  lemma {:induction false} FindRefIgnoresHash(a: ArtifactRef, b: ArtifactRef, current: seq<ArtifactRef>)
    requires SameIdentity(a, b)
    ensures FindRef(a, current) == FindRef(b, current)
  {
    if current != [] { FindRefIgnoresHash(a, b, current[1..]); }
  }

  lemma {:induction false} FirstHashedIsHashed(wanted: ArtifactRef, current: seq<ArtifactRef>)
    requires FindRef(wanted, current).Some? && FindRef(wanted, current).value.contentHash.Some?
    ensures FindHashed(wanted, current) == FindRef(wanted, current)
  {
    if !SameIdentity(wanted, current[0]) { FirstHashedIsHashed(wanted, current[1..]); }
  }

  // Under the condition, both forms look at the same current entry.
  lemma SameCurrentEntry(wanted: ArtifactRef, current: seq<ArtifactRef>)
    requires wanted.contentHash.Some? && FrameableRef(wanted) && AllFrameable(current) && HashedFirst(current)
    ensures RefMismatch(wanted, current) == FingerprintMismatch(FingerprintOf(wanted), Fingerprints(current))
    ensures RefVerified(wanted, current) == FingerprintVerified(FingerprintOf(wanted), Fingerprints(current))
  {
    hide IdentityDigest, ContentDigest;
    FindFingerprintSeesHashed(wanted, current);
    var hashed, first := FindHashed(wanted, current), FindRef(wanted, current);
    if first.Some? && first.value.contentHash.Some? {
      FirstHashedIsHashed(wanted, current);
      ContentDigestInjective(wanted.contentHash.value, first.value.contentHash.value);
    } else if hashed.Some? {
      FindRefIgnoresHash(wanted, hashed.value, current);
    }
  }

  lemma {:induction false} FingerprintsOfHashed(artifacts: seq<ArtifactRef>)
    ensures forall a | a in artifacts && a.contentHash.Some? :: FingerprintOf(a) in Fingerprints(artifacts)
    ensures forall f | f in Fingerprints(artifacts) ::
              exists a :: a in artifacts && a.contentHash.Some? && f == FingerprintOf(a)
  {
    hide FingerprintOf;
    if artifacts != [] { FingerprintsOfHashed(artifacts[1..]); }
  }

  lemma ComparisonsAgree(memory: seq<ArtifactRef>, current: seq<ArtifactRef>)
    requires AllFrameable(memory) && AllFrameable(current) && HashedFirst(current)
    ensures CompareFingerprints(FingerprintArtifacts(memory), FingerprintArtifacts(current))
         == CompareRefs(memory, current)
  {
    hide FingerprintOf, RefMismatch, RefVerified, FingerprintMismatch, FingerprintVerified, HashedFirst;
    var ms, cs := Fingerprints(memory), Fingerprints(current);
    FingerprintsOfHashed(memory);
    forall a | a in memory && a.contentHash.Some?
      ensures RefMismatch(a, current) == FingerprintMismatch(FingerprintOf(a), cs)
      ensures RefVerified(a, current) == FingerprintVerified(FingerprintOf(a), cs)
    {
      SameCurrentEntry(a, current);
    }
    forall a | a in memory && a.contentHash.None? ensures !RefMismatch(a, current) {
      UnhashedNeverMismatches(a, current);
    }
    assert (exists a | a in memory :: RefMismatch(a, current)) <==>
        (exists f | f in ms :: FingerprintMismatch(f, cs)) by {
      if a :| a in memory && RefMismatch(a, current) { assert FingerprintMismatch(FingerprintOf(a), cs); }
    }
    assert (exists a | a in memory :: a.contentHash.Some?) <==> ms != [] by {
      if ms != [] { assert ms[0] in ms; }
    }
    assert (forall a | a in memory && a.contentHash.Some? :: RefVerified(a, current))
      <==> (forall f | f in ms :: FingerprintVerified(f, cs));
  }

  lemma UnhashedNeverMismatches(a: ArtifactRef, current: seq<ArtifactRef>)
    requires a.contentHash.None?
    ensures !RefMismatch(a, current)
  {
  }

  // A recorded artifact that tells the two forms apart when the first current
  // entry of some identity is unhashed but a later one is hashed.
  lemma UnhashedFirstDisagrees(current: seq<ArtifactRef>) returns (memory: seq<ArtifactRef>)
    requires AllFrameable(current) && !HashedFirst(current)
    ensures AllFrameable(memory)
    ensures !CompareRefs(memory, current).mismatched
    ensures CompareFingerprints(FingerprintArtifacts(memory), FingerprintArtifacts(current)).mismatched
    ensures !CompareRefs(memory, current).fullyVerified
  {
    hide FindRef, FindHashed, FindFingerprint, IdentityDigest, ContentDigest, Frameable;
    var c :| c in current && c.contentHash.Some? && FindRef(c, current).value.contentHash.None?;
    var hashed := FindHashed(c, current);
    FindHashedExists(c, c, current);
    var other := if hashed.value.contentHash.value == "" then "x" else "";
    var a := c.(contentHash := Some(other));
    ShortIsFrameable(other);
    FindRefIgnoresHash(a, c, current);
    FindHashedIgnoresHash(a, c, current);
    FindFingerprintSeesHashed(a, current);
    ContentDigestInjective(other, hashed.value.contentHash.value);
    memory := [a];
    assert Fingerprints(memory) == [FingerprintOf(a)] by { assert memory[1..] == []; }
    assert FingerprintMismatch(FingerprintOf(a), Fingerprints(current));
    assert FingerprintOf(a) in Fingerprints(memory);
    assert a in memory;
  }

  lemma ShortIsFrameable(text: string)
    requires |text| <= 1
    ensures Frameable(text)
  {
    DomainsFit();
  }

  lemma {:induction false} FindHashedExists(wanted: ArtifactRef, c: ArtifactRef, current: seq<ArtifactRef>)
    requires c in current && c.contentHash.Some? && SameIdentity(wanted, c)
    ensures FindHashed(wanted, current).Some?
  {
    if current[0] != c { FindHashedExists(wanted, c, current[1..]); }
  }

  lemma {:induction false} FindHashedIgnoresHash(a: ArtifactRef, b: ArtifactRef, current: seq<ArtifactRef>)
    requires SameIdentity(a, b)
    ensures FindHashed(a, current) == FindHashed(b, current)
  {
    if current != [] { FindHashedIgnoresHash(a, b, current[1..]); }
  }

  ghost predicate FormsAgree(current: seq<ArtifactRef>) {
    forall memoryScope, currentScope, memory, git | AllFrameable(memory) ::
      ClassifyFingerprints(memoryScope, currentScope, FingerprintArtifacts(memory), FingerprintArtifacts(current), git)
      == ClassifyRefs(memoryScope, currentScope, memory, current, git)
  }

  // Fingerprint classification equals full classification, for every memory,
  // scope and Git answer, exactly for the current lists whose identities are
  // hashed at their first entry.
  lemma FingerprintClassificationExact(current: seq<ArtifactRef>)
    requires AllFrameable(current)
    ensures HashedFirst(current) <==> FormsAgree(current)
  {
    hide HashedFirst, CompareRefs, CompareFingerprints;
    if HashedFirst(current) {
      forall memoryScope, currentScope, memory: seq<ArtifactRef>, git | AllFrameable(memory)
        ensures ClassifyFingerprints(memoryScope, currentScope, FingerprintArtifacts(memory),
                                     FingerprintArtifacts(current), git)
             == ClassifyRefs(memoryScope, currentScope, memory, current, git)
      {
        ComparisonsAgree(memory, current);
      }
    } else {
      var memory := UnhashedFirstDisagrees(current);
      var scope := Scope("n", None, None, Some(RepositoryContext("r", None, None, None, None, None, None)));
      var git: GitResolver := (root, stored, now) => Unknown;
      assert ClassifyRefs(scope, scope, memory, current, git) == Unversioned;
      assert ClassifyFingerprints(scope, scope, FingerprintArtifacts(memory), FingerprintArtifacts(current), git)
          == Stale;
    }
  }

  // --- incomplete sets --------------------------------------------------

  // A set cut short can prove a mismatch of the whole, but never freshness.
  lemma IncompleteIsSound(
    partial: ArtifactFingerprintSet, full: ArtifactFingerprintSet, current: ArtifactFingerprintSet,
    memoryScope: Scope, currentScope: Scope, git: GitResolver)
    requires !partial.complete
    requires forall f | f in partial.fingerprints :: f in full.fingerprints
    ensures !partial.IsFullyVerifiedBy(current)
    ensures CompareFingerprints(partial, current).mismatched ==> CompareFingerprints(full, current).mismatched
    ensures var verdict := ClassifyFingerprints(memoryScope, currentScope, partial, current, git);
            var whole := ClassifyFingerprints(memoryScope, currentScope, full, current, git);
            && verdict != Exact
            && (CompareFingerprints(partial, current).mismatched ==> verdict == whole)
            && (verdict == whole || whole == Exact || CompareFingerprints(full, current).mismatched)
  {
    hide FingerprintMismatch, FingerprintVerified;
  }

  // An entry with the identity of `wanted` but other content comes before
  // `wanted` itself.
  predicate Shadowed(wanted: ArtifactFingerprint, current: seq<ArtifactFingerprint>) {
    exists i | 0 <= i < |current| ::
      && current[i].identity == wanted.identity && current[i] != wanted
      && forall j | 0 <= j < i :: current[j] != wanted
  }

  lemma ShadowAtHead(wanted: ArtifactFingerprint, current: seq<ArtifactFingerprint>)
    requires current != [] && current[0].identity == wanted.identity
    ensures Shadowed(wanted, current) == (current[0] != wanted)
  {
    if current[0] != wanted { assert current[0].identity == wanted.identity; }
  }

  lemma ShadowInTail(wanted: ArtifactFingerprint, current: seq<ArtifactFingerprint>)
    requires current != [] && current[0].identity != wanted.identity
    ensures Shadowed(wanted, current) == Shadowed(wanted, current[1..])
  {
    var rest := current[1..];
    assert forall i | 1 <= i < |current| :: current[i] == rest[i - 1];
    if Shadowed(wanted, rest) {
      var i :| && 0 <= i < |rest| && rest[i].identity == wanted.identity && rest[i] != wanted
               && forall j | 0 <= j < i :: rest[j] != wanted;
      assert current[i + 1] == rest[i];
      assert forall j | 0 <= j < i + 1 :: current[j] != wanted;
    }
    if Shadowed(wanted, current) {
      var i :| && 0 <= i < |current| && current[i].identity == wanted.identity && current[i] != wanted
               && forall j | 0 <= j < i :: current[j] != wanted;
      assert rest[i - 1] == current[i];
      assert forall j | 0 <= j < i - 1 :: rest[j] == current[j + 1];
    }
  }

  lemma {:induction false} ShadowDecides(wanted: ArtifactFingerprint, current: seq<ArtifactFingerprint>)
    requires wanted in current
    ensures FingerprintVerified(wanted, current) == !Shadowed(wanted, current)
    ensures FingerprintMismatch(wanted, current) ==> Shadowed(wanted, current)
  {
    hide Shadowed;
    if current[0].identity == wanted.identity {
      ShadowAtHead(wanted, current);
    } else {
      assert current == [current[0]] + current[1..];
      ShadowDecides(wanted, current[1..]);
      ShadowInTail(wanted, current);
    }
  }

  // The verified signal and the comparison say the same exactly when no
  // recorded artifact is shadowed among the current ones; otherwise the signal
  // alone claims verification, so the comparison never claims more.
  lemma FullyVerifiedAgrees(memory: ArtifactFingerprintSet, current: ArtifactFingerprintSet)
    ensures CompareFingerprints(memory, current).fullyVerified
         == (memory.IsFullyVerifiedBy(current)
             && !exists f | f in memory.fingerprints :: Shadowed(f, current.fingerprints))
  {
    hide Shadowed, FingerprintVerified, FingerprintMismatch;
    var fs, cs := memory.fingerprints, current.fingerprints;
    forall f | f in fs && f in cs
      ensures FingerprintVerified(f, cs) == !Shadowed(f, cs)
      ensures FingerprintMismatch(f, cs) ==> Shadowed(f, cs)
    {
      ShadowDecides(f, cs);
    }
    if CompareFingerprints(memory, current).fullyVerified {
      forall i | 0 <= i < |fs| ensures fs[i] in cs { VerifiedIsCurrent(fs[i], cs); }
    }
    assert memory.IsFullyVerifiedBy(current) ==> forall f | f in fs :: f in cs;
  }

  lemma VerifiedIsCurrent(wanted: ArtifactFingerprint, current: seq<ArtifactFingerprint>)
    ensures FingerprintVerified(wanted, current) ==> wanted in current
  {
  }
}
