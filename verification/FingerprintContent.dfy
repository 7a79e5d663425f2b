/** What a fingerprint depends on: the entries of a pattern list in terms of the file
    system, edits that change them, and the parts of the hashed stream. */
module FingerprintContent {
  import opened Wrappers
  import opened Manifest
  import opened Sorting
  import opened InputHasher

  // ---------- what a fingerprint depends on ----------

  function Joined(parts: seq<string>): string {
    if parts == [] then "" else if |parts| == 1 then parts[0] else parts[0] + "/" + Joined(parts[1..])
  }

  lemma {:induction false} ComponentsFromJoin(path: string, start: nat, i: nat)
    requires start <= i <= |path| && '/' !in path[start..i]
    ensures var parts := ComponentsFrom(path, start, i);
            parts != [] && Joined(parts) == path[start..] && forall part :: part in parts ==> '/' !in part
    decreases |path| - i
  {
    if i < |path| && path[i] == '/' {
      ComponentsFromJoin(path, i + 1, i + 1);
      var rest := ComponentsFrom(path, i + 1, i + 1);
      assert ([path[start..i]] + rest)[1..] == rest;
      assert path[start..] == path[start..i] + "/" + path[i + 1..];
    } else if i < |path| {
      assert path[start..i + 1] == path[start..i] + [path[i]];
      ComponentsFromJoin(path, start, i + 1);
    } else {
      assert path[start..i] == path[start..];
    }
  }

  /** Components are the pieces between the slashes. */
  lemma ComponentsJoin(path: string)
    ensures Joined(Components(path)) == path && forall part :: part in Components(path) ==> '/' !in part
  {
    ComponentsFromJoin(path, 0, 0);
    assert path[0..] == path;
  }

  // `..` stands at a position as a whole component.
  predicate ParentAt(p: string, j: nat) {
    && j + 1 < |p| && p[j] == '.' && p[j + 1] == '.'
    && (j == 0 || p[j - 1] == '/') && (j + 2 == |p| || p[j + 2] == '/')
  }

  ghost predicate ParentFrom(p: string, start: nat) {
    exists j: nat :: start <= j && ParentAt(p, j)
  }

  lemma NoSlash(p: string, start: nat, i: nat, j: nat)
    requires start <= i <= |p| && '/' !in p[start..i]
    ensures start <= j < i ==> p[j] != '/'
  {
    if start <= j < i { assert p[j] == p[start..i][j - start]; }
  }

  // A component from `start` to the next slash, or to the end.
  ghost predicate IsComponent(p: string, start: nat, i: nat) {
    start <= i <= |p| && '/' !in p[start..i] && (start == 0 || (start <= |p| && p[start - 1] == '/'))
    && (i < |p| ==> p[i] == '/')
  }

  lemma ComponentIsParent(p: string, start: nat, i: nat)
    requires IsComponent(p, start, i)
    ensures p[start..i] == ".." <==> ParentAt(p, start)
  {
    NoSlash(p, start, i, start);
    NoSlash(p, start, i, start + 1);
    NoSlash(p, start, i, start + 2);
    if i == start + 2 { assert p[start..i] == [p[start], p[start + 1]]; }
  }

  lemma ParentIsLater(p: string, start: nat, i: nat, j: nat)
    requires IsComponent(p, start, i) && start < j && ParentAt(p, j)
    ensures i < j
  {
    NoSlash(p, start, i, j - 1);
  }

  lemma ParentSplits(p: string, start: nat, i: nat)
    requires IsComponent(p, start, i)
    ensures ParentFrom(p, start) <==> p[start..i] == ".." || ParentFrom(p, i + 1)
  {
    ComponentIsParent(p, start, i);
    if ParentFrom(p, start) {
      var j: nat :| start <= j && ParentAt(p, j);
      if start < j { ParentIsLater(p, start, i, j); }
    }
  }

  lemma {:induction false} ParentComponent(p: string, start: nat, i: nat)
    requires start <= i <= |p| && '/' !in p[start..i] && (start == 0 || p[start - 1] == '/')
    ensures ".." in ComponentsFrom(p, start, i) <==> ParentFrom(p, start)
    decreases |p| - i
  {
    if i < |p| && p[i] != '/' {
      assert p[start..i + 1] == p[start..i] + [p[i]];
      ParentComponent(p, start, i + 1);
    } else {
      ParentSplits(p, start, i);
      if i < |p| { ParentComponent(p, i + 1, i + 1); } else { assert p[start..] == p[start..i]; }
    }
  }

  lemma ParentAnywhere(p: string)
    ensures HasParentComponent(p) <==> ParentFrom(p, 0)
  {
    if ParentFrom(p, 0) {
      var j: nat :| ParentAt(p, j);
      var i: int := j;
      assert 0 <= i < |p| - 1 && p[i] == '.' && p[i + 1] == '.'
             && (i == 0 || p[i - 1] == '/') && (i + 2 == |p| || p[i + 2] == '/');
    }
    if HasParentComponent(p) {
      var i :| 0 <= i < |p| - 1 && p[i] == '.' && p[i + 1] == '.'
               && (i == 0 || p[i - 1] == '/') && (i + 2 == |p| || p[i + 2] == '/');
      assert ParentAt(p, i);
    }
  }

  /** A manifest pattern is accepted exactly if it is the worktree mark, or is relative and
      has no parent component. */
  lemma RelativeMeans(p: string)
    ensures RelativePattern(p) <==> p == "@worktree" || (!("/" <= p) && ".." !in Components(p))
  {
    ParentComponent(p, 0, 0);
    ParentAnywhere(p);
  }

  // What a pattern lists.
  ghost predicate Lists(fs: FileSystem, pattern: string, m: Match) {
    if pattern == "@worktree" then fs.worktree.Some? && m in fs.worktree.value
    else pattern in fs.glob && m in fs.glob[pattern]
  }

  // A path with a component of these names is left out.
  predicate Considered(relative: string) {
    forall part :: part in Components(relative) ==>
      part != ".git" && part != ".cache" && part != "target" && part != "node_modules" && part != "dist"
  }

  // A listed path gives an entry with its content's digest, or its link's target.
  ghost predicate Yields(fs: FileSystem, k: Codec, m: Match, e: Entry) {
    && m.Under? && Considered(m.relative) && m.relative in fs.nodes && e.name == m.relative
    && match fs.nodes[m.relative]
       case Regular(content) => e.digest == k.sha(content)
       case Symlink(target) => e.digest == k.utf8("symlink:" + target)
       case OtherNode => false
  }

  ghost predicate PatternYields(fs: FileSystem, k: Codec, pattern: string, e: Entry) {
    if exists m :: Lists(fs, pattern, m) then exists m :: Lists(fs, pattern, m) && Yields(fs, k, m, e)
    else e == Entry("missing:" + pattern, [])
  }

  lemma EntriesAre(fs: FileSystem, k: Codec, m: Match, e: Entry)
    ensures e in EntriesOf(fs, k, m) <==> Yields(fs, k, m, e)
  {
    if m.Under? { assert Considered(m.relative) <==> !IsPruned(m.relative); }
  }

  lemma {:induction false} AllEntriesAre(fs: FileSystem, k: Codec, matches: seq<Match>, e: Entry)
    ensures e in AllEntries(fs, k, matches) <==> exists m :: m in matches && Yields(fs, k, m, e)
  {
    if matches != [] {
      var n := |matches| - 1;
      AllEntriesAre(fs, k, matches[..n], e);
      EntriesAre(fs, k, matches[n], e);
      assert matches == matches[..n] + [matches[n]];
    }
  }

  lemma PatternEntriesAre(fs: FileSystem, k: Codec, pattern: string, e: Entry)
    requires Enumerable(fs, [pattern])
    ensures PatternEntries(fs, k, pattern).Success?
    ensures e in PatternEntries(fs, k, pattern).value <==> PatternYields(fs, k, pattern, e)
  {
    assert [pattern][0] in [pattern];
    var matches := Matches(fs, pattern).value;
    assert forall m :: Lists(fs, pattern, m) <==> m in matches;
    if matches != [] { assert Lists(fs, pattern, matches[0]); }
    AllEntriesAre(fs, k, matches, e);
  }

  /** The entries of a pattern list are exactly: for each pattern, what its listed paths
      below the root give, or a mark with its text if it lists nothing. */
  lemma {:induction false} ExpansionIs(fs: FileSystem, k: Codec, patterns: seq<string>, e: Entry)
    requires Enumerable(fs, patterns)
    ensures e in Expansion(fs, k, patterns) <==> exists p :: p in patterns && PatternYields(fs, k, p, e)
  {
    if patterns != [] {
      var front, p := patterns[..|patterns| - 1], patterns[|patterns| - 1];
      assert patterns == front + [p];
      EnumerableParts(fs, front, [p]);
      ExpansionStep(fs, k, front, p);
      ExpansionIs(fs, k, front, e);
      PatternEntriesAre(fs, k, p, e);
    }
  }

  // ---------- edits ----------

  function Edited(fs: FileSystem, relative: string, content: Bytes): FileSystem {
    fs.(nodes := fs.nodes[relative := Regular(content)])
  }

  // A listed regular file, and an edit its digest tells apart.
  ghost predicate TellingEdit(fs: FileSystem, k: Codec, relative: string, content: Bytes) {
    && Considered(relative) && relative in fs.nodes && fs.nodes[relative].Regular?
    && k.sha(fs.nodes[relative].content) != k.sha(content)
  }

  function EntryFor(fs: FileSystem, k: Codec, relative: string): Entry
    requires relative in fs.nodes && fs.nodes[relative].Regular?
  {
    Entry(relative, k.sha(fs.nodes[relative].content))
  }

  lemma EditOfOne(fs: FileSystem, k: Codec, m: Match, relative: string, content: Bytes)
    requires TellingEdit(fs, k, relative, content)
    ensures var e := EntryFor(fs, k, relative);
            multiset(EntriesOf(Edited(fs, relative, content), k, m))[e] + (if m == Under(relative) then 1 else 0)
            == multiset(EntriesOf(fs, k, m))[e]
  {
    assert !IsPruned(relative);
  }

  lemma {:induction false} EditOfAll(fs: FileSystem, k: Codec, matches: seq<Match>, relative: string, content: Bytes)
    requires TellingEdit(fs, k, relative, content)
    ensures var e := EntryFor(fs, k, relative);
            multiset(AllEntries(Edited(fs, relative, content), k, matches))[e] + multiset(matches)[Under(relative)]
            == multiset(AllEntries(fs, k, matches))[e]
  {
    if matches != [] {
      var n := |matches| - 1;
      EditOfAll(fs, k, matches[..n], relative, content);
      EditOfOne(fs, k, matches[n], relative, content);
      assert matches == matches[..n] + [matches[n]];
    }
  }

  lemma EditOfPattern(fs: FileSystem, k: Codec, pattern: string, relative: string, content: Bytes)
    requires TellingEdit(fs, k, relative, content) && Enumerable(fs, [pattern])
    ensures var fs', e := Edited(fs, relative, content), EntryFor(fs, k, relative);
            && PatternEntries(fs, k, pattern).Success? && PatternEntries(fs', k, pattern).Success?
            && (var before, after := PatternEntries(fs, k, pattern).value, PatternEntries(fs', k, pattern).value;
                && multiset(after)[e] <= multiset(before)[e]
                && (Lists(fs, pattern, Under(relative)) ==> multiset(after)[e] < multiset(before)[e]))
  {
    assert [pattern][0] in [pattern];
    var matches := Matches(fs, pattern).value;
    EditOfAll(fs, k, matches, relative, content);
    assert Lists(fs, pattern, Under(relative)) ==> Under(relative) in matches;
  }

  lemma {:induction false} EditCounts(fs: FileSystem, k: Codec, patterns: seq<string>, relative: string, content: Bytes)
    requires TellingEdit(fs, k, relative, content) && Enumerable(fs, patterns)
    ensures var fs', e := Edited(fs, relative, content), EntryFor(fs, k, relative);
            && multiset(Expansion(fs', k, patterns))[e] <= multiset(Expansion(fs, k, patterns))[e]
            && ((exists p :: p in patterns && Lists(fs, p, Under(relative))) ==>
                  multiset(Expansion(fs', k, patterns))[e] < multiset(Expansion(fs, k, patterns))[e])
  {
    if patterns != [] {
      var front, p := patterns[..|patterns| - 1], patterns[|patterns| - 1];
      var fs' := Edited(fs, relative, content);
      assert patterns == front + [p];
      EnumerableParts(fs, front, [p]);
      ExpansionStep(fs, k, front, p);
      ExpansionStep(fs', k, front, p);
      EditCounts(fs, k, front, relative, content);
      EditOfPattern(fs, k, p, relative, content);
    }
  }

  /** Editing a listed regular file changes the entries, if the digest tells the contents
      apart. */
  lemma EditChangesEntries(fs: FileSystem, k: Codec, patterns: seq<string>, p: string, relative: string, content: Bytes)
    requires TellingEdit(fs, k, relative, content) && Enumerable(fs, patterns)
    requires p in patterns && Lists(fs, p, Under(relative))
    ensures multiset(Expansion(fs, k, patterns)) != multiset(Expansion(Edited(fs, relative, content), k, patterns))
  {
    EditCounts(fs, k, patterns, relative, content);
  }

  // ---------- patterns, header and order ----------

  // A part of a command that names a file of the repository.
  predicate NamesSource(part: string) {
    || "scripts/" <= part || "apps/" <= part || "crates/" <= part || "tests/" <= part || "perf/" <= part
    || ".github/" <= part
  }

  predicate Normalizes(part: string, p: string) {
    part == "./" + p || (part == p && !("./" <= part))
  }

  lemma {:induction false} SetPatternsAre(names: seq<string>, sets: map<string, seq<string>>, p: string)
    requires forall n :: n in names ==> n in sets
    ensures p in SetPatterns(names, sets) <==> exists n :: n in names && p in sets[n]
  {
    if names != [] {
      SetPatternsAre(names[1..], sets, p);
      assert names == [names[0]] + names[1..];
    }
  }

  lemma OnePartIs(part: string, p: string)
    ensures Normalizes(part, p) <==> WithoutDotSlash(part) == p
  {
    if "./" <= part { assert part == "./" + part[2..]; }
    if part == "./" + p { assert part[2..] == p; }
  }

  lemma PrefixesAre(part: string)
    ensures NamesSource(part) <==> exists p :: p in SOURCE_PREFIXES && p <= part
  {
    assert forall i :: 0 <= i < 6 ==> SOURCE_PREFIXES[i] in SOURCE_PREFIXES;
    assert SOURCE_PREFIXES[0] == "scripts/" && SOURCE_PREFIXES[1] == "apps/" && SOURCE_PREFIXES[2] == "crates/";
    assert SOURCE_PREFIXES[3] == "tests/" && SOURCE_PREFIXES[4] == "perf/" && SOURCE_PREFIXES[5] == ".github/";
  }

  lemma {:induction false} CommandInputsAre(command: seq<string>, p: string)
    ensures p in CommandSourceInputs(command) <==>
            NamesSource(p) && exists part :: part in command && Normalizes(part, p)
  {
    if command != [] {
      CommandInputsAre(command[1..], p);
      OnePartIs(command[0], p);
      PrefixesAre(WithoutDotSlash(command[0]));
      assert command == [command[0]] + command[1..];
    }
  }

  /** A check is fingerprinted over its own inputs, those of its sets, and the repository
      files its command names. */
  lemma PatternsAre(c: Check, sets: map<string, seq<string>>, command: seq<string>, p: string)
    requires forall n :: n in c.inputSets ==> n in sets
    ensures p in Patterns(c, sets, command) <==>
            || p in c.inputs
            || (exists n :: n in c.inputSets && p in sets[n])
            || (NamesSource(p) && exists part :: part in command && Normalizes(part, p))
  {
    SetPatternsAre(c.inputSets, sets, p);
    CommandInputsAre(command, p);
  }

  /** The header holds the schema, the identifier and the command, and the execution context
      unless it is the default one. */
  lemma HeaderIs(c: Check, command: seq<string>, k: Codec)
    ensures c.sourceAuthority == "repository" && c.evidenceLane == "w0_docs" && c.claim == "verification"
            && !c.producesArtifact ==>
              Header(c, command, k)
              == k.utf8("resume-ir.local-verification-ledger.v1") + k.utf8(c.identifier) + k.json(command)
    ensures !(c.sourceAuthority == "repository" && c.evidenceLane == "w0_docs" && c.claim == "verification"
              && !c.producesArtifact) ==>
              Header(c, command, k)
              == k.utf8("resume-ir.local-verification-ledger.v2") + k.utf8(c.identifier) + k.json(command)
                 + (k.utf8(c.sourceAuthority) + k.utf8(c.evidenceLane) + k.utf8(c.claim)
                    + k.utf8(if c.producesArtifact then "True" else "False"))
  {}

  // The entries as they are fed to the digest.
  function Fed(entries: seq<Entry>, k: Codec): Bytes {
    if entries == [] then []
    else k.utf8(entries[0].name) + [0] + entries[0].digest + [0] + Fed(entries[1..], k)
  }

  lemma {:induction false} FedAppends(entries: seq<Entry>, e: Entry, k: Codec)
    ensures Fed(entries + [e], k) == Fed(entries, k) + (k.utf8(e.name) + [0] + e.digest + [0])
  {
    if entries == [] {
      assert entries + [e] == [e];
      assert [e][1..] == [];
    } else {
      FedAppends(entries[1..], e, k);
      assert (entries + [e])[1..] == entries[1..] + [e];
    }
  }

  lemma {:induction false} BodyIsFed(entries: seq<Entry>, k: Codec)
    ensures Body(entries, k) == Fed(entries, k)
  {
    if entries != [] {
      var n := |entries| - 1;
      BodyIsFed(entries[..n], k);
      FedAppends(entries[..n], entries[n], k);
      assert entries == entries[..n] + [entries[n]];
    }
  }

  /** The fingerprint is the digest of the header and of the entries in their order. */
  lemma FingerprintIs(fs: FileSystem, k: Codec, c: Check, sets: map<string, seq<string>>, command: seq<string>,
                      entries: seq<Entry>)
    requires (forall n :: n in c.inputSets ==> n in sets) && Enumerable(fs, Patterns(c, sets, command))
    requires multiset(entries) == multiset(Expansion(fs, k, Patterns(c, sets, command)))
    requires SortedBy(entries, EntryLe)
    ensures Fingerprint(fs, k, c, sets, command) == k.sha(Header(c, command, k) + Fed(entries, k))
  {
    var all := Expansion(fs, k, Patterns(c, sets, command));
    EntryLeIsAnOrder();
    SortPermutes(all, EntryLe);
    SortSorts(all, EntryLe);
    SortedIsUnique(entries, Sort(all, EntryLe), EntryLe);
    BodyIsFed(entries, k);
  }

  lemma FirstAgrees(a: string, b: string, i: nat)
    requires i < |a| && i < |b| && a[..i] == b[..i]
    ensures i > 0 ==> a[0] == b[0]
  {
    if i > 0 { assert a[..i][0] == b[..i][0]; }
  }

  /** Names compare by the first character in which they differ; a prefix comes first. */
  lemma {:induction false} NameLeMeans(a: string, b: string)
    ensures NameLe(a, b) <==>
            a <= b || exists i :: 0 <= i < |a| && i < |b| && a[..i] == b[..i] && a[i] < b[i]
  {
    if a != [] && b != [] && a[0] == b[0] {
      var c, d := a[1..], b[1..];
      NameLeMeans(c, d);
      assert a == [a[0]] + c && b == [b[0]] + d;
      if i :| 0 <= i < |c| && i < |d| && c[..i] == d[..i] && c[i] < d[i] {
        assert a[..i + 1] == [a[0]] + c[..i] && b[..i + 1] == [b[0]] + d[..i];
        assert a[i + 1] < b[i + 1];
      }
      if i :| 0 <= i < |a| && i < |b| && a[..i] == b[..i] && a[i] < b[i] {
        assert c[..i - 1] == a[..i][1..] && d[..i - 1] == b[..i][1..];
        assert c[i - 1] < d[i - 1];
      }
    } else if a != [] && b != [] {
      if a[0] < b[0] { assert a[..0] == b[..0]; }
      if i :| 0 <= i < |a| && i < |b| && a[..i] == b[..i] && a[i] < b[i] {
        FirstAgrees(a, b, i);
      }
    }
  }

  // ---------- what an accepted manifest makes of a check ----------

  /** Every pattern of an accepted check that its command does not name is legal; none is empty. */
  lemma DeclaredPatternsStayBelow(m: Manifest, k: nat, command: seq<string>, p: string)
    requires Accepted(m) && k < |m.checks|
    ensures forall n :: n in m.checks[k].inputSets ==> n in m.inputSets
    ensures p in Patterns(m.checks[k], m.inputSets, command) ==>
              && p != ""
              && (p == "@worktree" || (!("/" <= p) && ".." !in Components(p)) || NamesSource(p))
  {
    var c := m.checks[k];
    assert EntryAccepted(c, m.resources, m.inputSets);
    PatternsAre(c, m.inputSets, command, p);
    RelativeMeans(p);
  }

  /** An accepted check never has an empty list of patterns. */
  lemma AcceptedHasPatterns(m: Manifest, k: nat, command: seq<string>)
    requires Accepted(m) && k < |m.checks|
    ensures forall n :: n in m.checks[k].inputSets ==> n in m.inputSets
    ensures Patterns(m.checks[k], m.inputSets, command) != []
  {
    var c := m.checks[k];
    assert EntryAccepted(c, m.resources, m.inputSets);
    if c.inputs == [] {
      var first := m.inputSets[c.inputSets[0]][0];
      SetPatternsAre(c.inputSets, m.inputSets, first);
      assert first in SetPatterns(c.inputSets, m.inputSets);
    }
  }
}
