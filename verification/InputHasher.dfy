/** Input fingerprints: pattern expansion over an unchanging file system, its two caches,
    and the byte stream that is hashed. */
module InputHasher {
  import opened Wrappers
  import opened Manifest
  import opened Sorting

  type Bytes = seq<int>

  datatype Node = Regular(content: Bytes) | Symlink(target: string) | OtherNode

  // A path found by a glob or by the worktree listing, relative to the root unless it
  // lies outside.
  datatype Match = Outside | Under(relative: string)

  // The file system as one runner invocation sees it.  `worktree` is None when the
  // worktree cannot be listed.
  datatype FileSystem = FileSystem(
    glob: map<string, seq<Match>>,
    worktree: Option<seq<Match>>,
    nodes: map<string, Node>)

  // The foreign functions: SHA-256, UTF-8 and JSON encoding.
  datatype Codec = Codec(sha: Bytes -> Bytes, utf8: string -> Bytes, json: seq<string> -> Bytes)

  datatype Entry = Entry(name: string, digest: Bytes)

  datatype HashError = WorktreeUnavailable

  const PRUNED: set<string> := {".git", ".cache", "target", "node_modules", "dist"}

  function Components(path: string): seq<string> {
    ComponentsFrom(path, 0, 0)
  }

  function ComponentsFrom(path: string, start: nat, i: nat): seq<string>
    requires start <= i <= |path|
    decreases |path| - i
  {
    if i == |path| then [path[start..]]
    else if path[i] == '/' then [path[start..i]] + ComponentsFrom(path, i + 1, i + 1)
    else ComponentsFrom(path, start, i + 1)
  }

  predicate IsPruned(relative: string) {
    exists part :: part in Components(relative) && part in PRUNED
  }

  function EntriesOf(fs: FileSystem, k: Codec, m: Match): seq<Entry> {
    if m.Outside? || IsPruned(m.relative) || m.relative !in fs.nodes then []
    else match fs.nodes[m.relative]
      case Symlink(target) => [Entry(m.relative, k.utf8("symlink:" + target))]
      case Regular(content) => [Entry(m.relative, k.sha(content))]
      case OtherNode => []
  }

  function AllEntries(fs: FileSystem, k: Codec, matches: seq<Match>): seq<Entry> {
    if matches == [] then []
    else AllEntries(fs, k, matches[..|matches| - 1]) + EntriesOf(fs, k, matches[|matches| - 1])
  }

  function Matches(fs: FileSystem, pattern: string): Result<seq<Match>, HashError> {
    if pattern == "@worktree" then
      if fs.worktree.None? then Failure(WorktreeUnavailable) else Success(fs.worktree.value)
    else Success(if pattern in fs.glob then fs.glob[pattern] else [])
  }

  /** The uncached expansion of one pattern. */
  function PatternEntries(fs: FileSystem, k: Codec, pattern: string): Result<seq<Entry>, HashError> {
    var matches :- Matches(fs, pattern);
    Success(if matches == [] then [Entry("missing:" + pattern, [])] else AllEntries(fs, k, matches))
  }

  predicate Enumerable(fs: FileSystem, patterns: seq<string>) {
    "@worktree" in patterns ==> fs.worktree.Some?
  }

  /** The uncached expansion of a pattern list. */
  function Expansion(fs: FileSystem, k: Codec, patterns: seq<string>): seq<Entry>
    requires Enumerable(fs, patterns)
  {
    if patterns == [] then []
    else
      var n := |patterns| - 1;
      assert patterns == patterns[..n] + [patterns[n]];
      Expansion(fs, k, patterns[..n]) + PatternEntries(fs, k, patterns[n]).value
  }

  class InputHasher {
    const fs: FileSystem
    const k: Codec
    var patternEntries: map<string, seq<Entry>>
    var fileDigests: map<string, Bytes>

    // Everything cached is what an uncached computation would give.
    ghost predicate Valid()
      reads this
    {
      && (forall p :: p in patternEntries ==> PatternEntries(fs, k, p) == Success(patternEntries[p]))
      && (forall r :: r in fileDigests ==>
            r in fs.nodes && fs.nodes[r].Regular? && fileDigests[r] == k.sha(fs.nodes[r].content))
    }

    constructor (fileSystem: FileSystem, codec: Codec)
      ensures Valid() && fs == fileSystem && k == codec
      ensures patternEntries == map[] && fileDigests == map[]
    {
      fs, k, patternEntries, fileDigests := fileSystem, codec, map[], map[];
    }

    method FileDigest(relative: string) returns (digest: Bytes)
      requires Valid() && relative in fs.nodes && fs.nodes[relative].Regular?
      modifies `fileDigests
      ensures Valid() && digest == k.sha(fs.nodes[relative].content)
    {
      if relative in fileDigests { return fileDigests[relative]; }
      digest := k.sha(fs.nodes[relative].content);
      fileDigests := fileDigests[relative := digest];
    }

    method ExpandPattern(pattern: string) returns (r: Result<seq<Entry>, HashError>)
      requires Valid()
      modifies `fileDigests
      ensures Valid() && r == PatternEntries(fs, k, pattern)
    {
      var found := Matches(fs, pattern);
      if found.Failure? { return Failure(found.error); }
      var matches := found.value;
      if matches == [] { return Success([Entry("missing:" + pattern, [])]); }
      var entries: seq<Entry> := [];
      for i := 0 to |matches|
        invariant Valid()
        invariant entries == AllEntries(fs, k, matches[..i])
      {
        assert matches[..i + 1][..i] == matches[..i];
        var m := matches[i];
        if m.Outside? || IsPruned(m.relative) || m.relative !in fs.nodes { continue; }
        match fs.nodes[m.relative]
        case Symlink(target) => entries := entries + [Entry(m.relative, k.utf8("symlink:" + target))];
        case Regular(_) =>
          var digest := FileDigest(m.relative);
          entries := entries + [Entry(m.relative, digest)];
        case OtherNode =>
      }
      assert matches[..|matches|] == matches;
      return Success(entries);
    }

    /** Whatever was expanded before, the result is that of an uncached expansion. */
    method Expand(patterns: seq<string>) returns (r: Result<seq<Entry>, HashError>)
      requires Valid()
      modifies this
      ensures Valid()
      ensures r.Success? <==> Enumerable(fs, patterns)
      ensures r.Success? ==> r.value == Expansion(fs, k, patterns)
    {
      var entries: seq<Entry> := [];
      for i := 0 to |patterns|
        invariant Valid() && Enumerable(fs, patterns[..i])
        invariant entries == Expansion(fs, k, patterns[..i])
      {
        var pattern := patterns[i];
        assert patterns[..i + 1][..i] == patterns[..i];
        assert patterns[..i + 1] == patterns[..i] + [pattern];
        var cached: seq<Entry>;
        if pattern in patternEntries {
          cached := patternEntries[pattern];
        } else {
          var expanded := ExpandPattern(pattern);
          if expanded.Failure? {
            assert pattern in patterns;
            return Failure(expanded.error);
          }
          cached := expanded.value;
          patternEntries := patternEntries[pattern := cached];
        }
        entries := entries + cached;
      }
      assert patterns[..|patterns|] == patterns;
      return Success(entries);
    }
  }

  // ---------- ordering of entries ----------

  // Lexicographic order on sequences, given the order of their elements by `rank`.
  predicate LexLe<T(==)>(a: seq<T>, b: seq<T>, rank: T -> int) {
    a == [] || (b != [] && (rank(a[0]) < rank(b[0]) || (a[0] == b[0] && LexLe(a[1..], b[1..], rank))))
  }

  ghost predicate Injective<T(!new)>(rank: T -> int) {
    forall x, y :: rank(x) == rank(y) ==> x == y
  }

  lemma {:induction false} LexTotal<T(!new)>(a: seq<T>, b: seq<T>, rank: T -> int)
    requires Injective(rank)
    ensures LexLe(a, b, rank) || LexLe(b, a, rank)
  {
    if a != [] && b != [] && a[0] == b[0] { LexTotal(a[1..], b[1..], rank); }
  }

  lemma {:induction false} LexTransitive<T(!new)>(a: seq<T>, b: seq<T>, c: seq<T>, rank: T -> int)
    requires LexLe(a, b, rank) && LexLe(b, c, rank)
    ensures LexLe(a, c, rank)
  {
    if a != [] && a[0] == b[0] && b[0] == c[0] { LexTransitive(a[1..], b[1..], c[1..], rank); }
  }

  lemma {:induction false} LexAntisymmetric<T(!new)>(a: seq<T>, b: seq<T>, rank: T -> int)
    requires LexLe(a, b, rank) && LexLe(b, a, rank)
    ensures a == b
  {
    if a != [] {
      LexAntisymmetric(a[1..], b[1..], rank);
      assert a == [a[0]] + a[1..] && b == [b[0]] + b[1..];
    }
  }

  function CodePoint(c: char): int { c as int }
  function ByteValue(b: int): int { b }

  predicate NameLe(a: string, b: string) { LexLe(a, b, CodePoint) }
  predicate BytesLe(a: Bytes, b: Bytes) { LexLe(a, b, ByteValue) }

  // Pairs compare by name, then by digest.
  predicate EntryLe(a: Entry, b: Entry) {
    if a.name == b.name then BytesLe(a.digest, b.digest) else NameLe(a.name, b.name)
  }

  lemma EntryLeTransitive(a: Entry, b: Entry, c: Entry)
    requires EntryLe(a, b) && EntryLe(b, c)
    ensures EntryLe(a, c)
  {
    if a.name == b.name == c.name {
      LexTransitive(a.digest, b.digest, c.digest, ByteValue);
    } else if a.name == c.name {
      LexAntisymmetric(a.name, b.name, CodePoint);
    } else if a.name != b.name && b.name != c.name {
      LexTransitive(a.name, b.name, c.name, CodePoint);
    }
  }

  lemma EntryLeIsAnOrder()
    ensures TotalPreorder(EntryLe) && Antisymmetric(EntryLe)
  {
    forall a, b
      ensures EntryLe(a, b) || EntryLe(b, a)
      ensures EntryLe(a, b) && EntryLe(b, a) ==> a == b
    {
      LexTotal(a.name, b.name, CodePoint);
      LexTotal(a.digest, b.digest, ByteValue);
      if EntryLe(a, b) && EntryLe(b, a) {
        if a.name == b.name {
          LexAntisymmetric(a.digest, b.digest, ByteValue);
        } else {
          LexAntisymmetric(a.name, b.name, CodePoint);
        }
      }
    }
    forall a, b, c | EntryLe(a, b) && EntryLe(b, c)
      ensures EntryLe(a, c)
    {
      EntryLeTransitive(a, b, c);
    }
  }

  // ---------- fingerprints ----------

  const SOURCE_PREFIXES: seq<string> := ["scripts/", "apps/", "crates/", "tests/", "perf/", ".github/"]

  function WithoutDotSlash(part: string): string {
    if "./" <= part then part[2..] else part
  }

  function CommandSourceInputs(command: seq<string>): seq<string> {
    if command == [] then []
    else
      var part := WithoutDotSlash(command[0]);
      (if exists p :: p in SOURCE_PREFIXES && p <= part then [part] else []) + CommandSourceInputs(command[1..])
  }

  function SetPatterns(names: seq<string>, sets: map<string, seq<string>>): seq<string>
    requires forall n :: n in names ==> n in sets
  {
    if names == [] then [] else sets[names[0]] + SetPatterns(names[1..], sets)
  }

  function Patterns(c: Check, sets: map<string, seq<string>>, command: seq<string>): seq<string>
    requires forall n :: n in c.inputSets ==> n in sets
  {
    c.inputs + SetPatterns(c.inputSets, sets) + CommandSourceInputs(command)
  }

  predicate ExplicitContext(c: Check) {
    c.sourceAuthority != "repository" || c.evidenceLane != "w0_docs"
    || c.claim != "verification" || c.producesArtifact
  }

  function Header(c: Check, command: seq<string>, k: Codec): Bytes {
    k.utf8(if ExplicitContext(c) then "resume-ir.local-verification-ledger.v2"
           else "resume-ir.local-verification-ledger.v1")
    + k.utf8(c.identifier) + k.json(command)
    + if ExplicitContext(c)
      then k.utf8(c.sourceAuthority) + k.utf8(c.evidenceLane) + k.utf8(c.claim)
           + k.utf8(if c.producesArtifact then "True" else "False")
      else []
  }

  function EntryBytes(e: Entry, k: Codec): Bytes {
    k.utf8(e.name) + [0] + e.digest + [0]
  }

  function Body(entries: seq<Entry>, k: Codec): Bytes {
    if entries == [] then []
    else Body(entries[..|entries| - 1], k) + EntryBytes(entries[|entries| - 1], k)
  }

  function Fingerprint(fs: FileSystem, k: Codec, c: Check, sets: map<string, seq<string>>, command: seq<string>): Bytes
    requires forall n :: n in c.inputSets ==> n in sets
    requires Enumerable(fs, Patterns(c, sets, command))
  {
    k.sha(Header(c, command, k) + Body(Sort(Expansion(fs, k, Patterns(c, sets, command)), EntryLe), k))
  }

  method Feed(header: Bytes, entries: seq<Entry>, k: Codec) returns (stream: Bytes)
    ensures stream == header + Body(entries, k)
  {
    stream := header;
    for i := 0 to |entries|
      invariant stream == header + Body(entries[..i], k)
    {
      assert entries[..i + 1][..i] == entries[..i];
      stream := stream + k.utf8(entries[i].name);
      stream := stream + [0];
      stream := stream + entries[i].digest;
      stream := stream + [0];
      assert stream == header + (Body(entries[..i], k) + EntryBytes(entries[i], k));
    }
    assert entries[..|entries|] == entries;
  }

  /** The fingerprint is the same whatever the hasher has cached from earlier checks. */
  method FingerprintFor(hasher: InputHasher, c: Check, sets: map<string, seq<string>>, command: seq<string>)
    returns (r: Result<Bytes, HashError>)
    requires hasher.Valid() && forall n :: n in c.inputSets ==> n in sets
    modifies hasher
    ensures hasher.Valid()
    ensures r.Success? <==> Enumerable(hasher.fs, Patterns(c, sets, command))
    ensures r.Success? ==> r.value == Fingerprint(hasher.fs, hasher.k, c, sets, command)
  {
    var expanded := hasher.Expand(Patterns(c, sets, command));
    if expanded.Failure? { return Failure(expanded.error); }
    var stream := Feed(Header(c, command, hasher.k), Sort(expanded.value, EntryLe), hasher.k);
    return Success(hasher.k.sha(stream));
  }

  // ---------- independence of pattern order ----------

  lemma EnumerableParts(fs: FileSystem, a: seq<string>, b: seq<string>)
    requires Enumerable(fs, a + b)
    ensures Enumerable(fs, a) && Enumerable(fs, b)
  {}

  lemma ExpansionStep(fs: FileSystem, k: Codec, s: seq<string>, p: string)
    requires Enumerable(fs, s + [p])
    ensures Enumerable(fs, s) && PatternEntries(fs, k, p).Success?
    ensures Expansion(fs, k, s + [p]) == Expansion(fs, k, s) + PatternEntries(fs, k, p).value
  {
    EnumerableParts(fs, s, [p]);
    assert (s + [p])[..|s|] == s && [p][0] in [p];
  }

  lemma {:induction false} ExpansionConcat(fs: FileSystem, k: Codec, a: seq<string>, b: seq<string>)
    requires Enumerable(fs, a + b)
    ensures Enumerable(fs, a) && Enumerable(fs, b)
    ensures Expansion(fs, k, a + b) == Expansion(fs, k, a) + Expansion(fs, k, b)
    decreases |b|
  {
    EnumerableParts(fs, a, b);
    if b == [] {
      assert a + b == a;
    } else {
      var front, p := b[..|b| - 1], b[|b| - 1];
      assert b == front + [p] && a + b == (a + front) + [p];
      ExpansionStep(fs, k, a + front, p);
      ExpansionStep(fs, k, front, p);
      ExpansionConcat(fs, k, a, front);
    }
  }

  lemma SplitAt(fs: FileSystem, k: Codec, s: seq<string>, i: nat, rest: seq<string>)
    requires i < |s| && Enumerable(fs, s) && rest == s[..i] + s[i + 1..]
    ensures Enumerable(fs, rest) && Enumerable(fs, [s[i]])
    ensures multiset(Expansion(fs, k, s))
            == multiset(Expansion(fs, k, rest)) + multiset(Expansion(fs, k, [s[i]]))
  {
    assert s == s[..i] + [s[i]] + s[i + 1..];
    assert forall p :: p in rest ==> p in s;
    ExpansionConcat(fs, k, s[..i] + [s[i]], s[i + 1..]);
    ExpansionConcat(fs, k, s[..i], [s[i]]);
    ExpansionConcat(fs, k, s[..i], s[i + 1..]);
  }

  lemma RemoveFirst(a: seq<string>, b: seq<string>) returns (i: nat, rest: seq<string>)
    requires multiset(a) == multiset(b) && a != []
    ensures i < |b| && b[i] == a[0] && rest == b[..i] + b[i + 1..]
    ensures multiset(a[1..]) == multiset(rest)
  {
    assert a[0] in multiset(b);
    i :| 0 <= i < |b| && b[i] == a[0];
    rest := b[..i] + b[i + 1..];
    assert a == [a[0]] + a[1..];
    assert b == b[..i] + [b[i]] + b[i + 1..];
    assert multiset(a) == multiset{a[0]} + multiset(a[1..]);
    assert multiset(b) == multiset(b[..i]) + multiset{b[i]} + multiset(b[i + 1..]);
    assert multiset(rest) == multiset(b) - multiset{b[i]};
    assert multiset(a[1..]) == multiset(a) - multiset{a[0]};
  }

  lemma PermutedEnumerable(fs: FileSystem, a: seq<string>, b: seq<string>)
    requires multiset(a) == multiset(b) && Enumerable(fs, a)
    ensures Enumerable(fs, b)
  {
    if "@worktree" in b { assert "@worktree" in multiset(a); }
  }

  /** Rearranging the patterns rearranges the expanded entries. */
  lemma {:induction false} ExpansionPermutes(fs: FileSystem, k: Codec, a: seq<string>, b: seq<string>)
    requires multiset(a) == multiset(b) && Enumerable(fs, a)
    ensures Enumerable(fs, b)
    ensures multiset(Expansion(fs, k, a)) == multiset(Expansion(fs, k, b))
    decreases |a|
  {
    PermutedEnumerable(fs, a, b);
    if a == [] {
      assert |b| == |multiset(b)| == 0;
    } else {
      var i, rest := RemoveFirst(a, b);
      assert a[1..] == a[..0] + a[1..];
      SplitAt(fs, k, a, 0, a[1..]);
      SplitAt(fs, k, b, i, rest);
      ExpansionPermutes(fs, k, a[1..], rest);
    }
  }

  // Checks that differ only in how their inputs are declared.
  predicate SameIdentity(c: Check, d: Check) {
    c == d.(inputs := c.inputs, inputSets := c.inputSets, behavior := c.behavior,
            resources := c.resources, command := c.command)
  }

  /** Equal expanded entries, in any order and from whatever files and declarations, give
      equal fingerprints. */
  lemma FingerprintSeesOnlyTheMultiset(fs: FileSystem, fs': FileSystem, k: Codec, c: Check, d: Check,
                                       sets: map<string, seq<string>>, sets': map<string, seq<string>>,
                                       command: seq<string>)
    requires SameIdentity(c, d)
    requires (forall n :: n in c.inputSets ==> n in sets) && (forall n :: n in d.inputSets ==> n in sets')
    requires Enumerable(fs, Patterns(c, sets, command)) && Enumerable(fs', Patterns(d, sets', command))
    requires multiset(Expansion(fs, k, Patterns(c, sets, command)))
             == multiset(Expansion(fs', k, Patterns(d, sets', command)))
    ensures Fingerprint(fs, k, c, sets, command) == Fingerprint(fs', k, d, sets', command)
  {
    EntryLeIsAnOrder();
    SortForgetsOrder(Expansion(fs, k, Patterns(c, sets, command)),
                     Expansion(fs', k, Patterns(d, sets', command)), EntryLe);
  }

  /** Reordering patterns, or moving them between a check's own inputs and its input sets,
      does not change its fingerprint. */
  lemma FingerprintIgnoresPatternOrder(fs: FileSystem, k: Codec, c: Check, d: Check,
                                       sets: map<string, seq<string>>, sets': map<string, seq<string>>,
                                       command: seq<string>)
    requires SameIdentity(c, d)
    requires (forall n :: n in c.inputSets ==> n in sets) && (forall n :: n in d.inputSets ==> n in sets')
    requires Enumerable(fs, Patterns(c, sets, command))
    requires multiset(Patterns(c, sets, command)) == multiset(Patterns(d, sets', command))
    ensures Enumerable(fs, Patterns(d, sets', command))
    ensures Fingerprint(fs, k, c, sets, command) == Fingerprint(fs, k, d, sets', command)
  {
    ExpansionPermutes(fs, k, Patterns(c, sets, command), Patterns(d, sets', command));
    FingerprintSeesOnlyTheMultiset(fs, fs, k, c, d, sets, sets', command);
  }
}
