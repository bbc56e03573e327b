/**
 The calls that write evidence, one at a time: naming artifacts, persisting the raw
 records of a profile, and finishing a cycle. `Fault` is what the operating system does
 to one file operation.
 */
module EvidenceStore {
  import opened ArtifactNames
  import opened Basics
  import opened EnvelopeText
  import opened EvidenceRuns
  import opened EvidenceTheorems
  import opened Ordering

  // ----- one file

  datatype Fault = NoFault | CreateFails | WriteFails(partial: Bytes, removed: bool) | FinishFails(removed: bool)

  /** `contents` is absent when the record's encoding cannot be decoded. */
  datatype RawArtifact = RawArtifact(name: string, contents: Option<Bytes>, mediaType: string)

  function NameOf(raw: RawArtifact): string { SafeArtifactName(raw.name) }

  datatype Reference = Reference(path: Path, digest: Digest, mediaType: string)

  /** The elements a file's path is joined from. */
  function Elements(path: Path): seq<string> {
    match path
    case InCycle(cycle, name) => [cycle, name]
    case InProfile(cycle, profile, phase, name) => [cycle, profile, phase, name]
    case Latest(name) => [name]
    case Outside(name) => [name]
    case Temporary(suffix) => [".evidence-" + Decimal(suffix)]
  }

  /** A path as the operating system is given it. */
  function PathText(path: Path): string { JoinPath(Elements(path)) }

  function PathOf(r: Reference): string { PathText(r.path) }

  function ByPath(): Reference -> string { r => PathOf(r) }

  /** A file of the evidence directory whose names are proper path elements. */
  ghost predicate ProperPath(path: Path) {
    !path.Outside? && !path.Temporary? && forall i :: 0 <= i < |Elements(path)| ==> ProperElement(Elements(path)[i])
  }

  /** Different records of proper names are joined to different paths. */
  lemma PathTextFixesPath(a: Path, b: Path)
    requires ProperPath(a) && ProperPath(b) && PathText(a) == PathText(b)
    ensures a == b
  {
    ProperJoin(Elements(a));
    ProperJoin(Elements(b));
    SlashedFixed(Elements(a), Elements(b));
    assert |Elements(a)| == |Elements(b)|;
    if a.InProfile? {
      assert Elements(a)[0] == Elements(b)[0] && Elements(a)[1] == Elements(b)[1];
      assert Elements(a)[2] == Elements(b)[2] && Elements(a)[3] == Elements(b)[3];
    } else if a.InCycle? {
      assert Elements(a)[0] == Elements(b)[0] && Elements(a)[1] == Elements(b)[1];
    } else {
      assert Elements(a)[0] == Elements(b)[0];
    }
  }

  /** A profile called like the parent directory would share files with another cycle. */
  lemma ParentNamesCollide(cycle: string, other: string, name: string)
    requires ProperElement(cycle) && ProperElement(other) && ProperElement(name)
    ensures PathText(InProfile(cycle, "..", other, name)) == PathText(InCycle(other, name))
  {
    ProperJoin([other, name]);
    var split := [cycle, "..", other, name];
    forall i | 0 <= i < 4 ensures '/' !in split[i] {}
    PiecesOfParts(split);
    WalkBack(cycle, [other, name]);
    assert split == [cycle, ".."] + [other, name];
    ProperWalk([other, name], []);
    NotRooted(split);
    NotRooted([other, name]);
    PiecesOfParts([other, name]);
  }

  lemma NotRooted(elements: seq<string>)
    requires elements != [] && ProperElement(elements[0])
    ensures !Rooted(elements)
  {}

  lemma WalkBack(cycle: string, rest: seq<string>)
    requires ProperElement(cycle)
    ensures Walk(false, [cycle, ".."] + rest, []) == Walk(false, rest, [])
  {
    var all := [cycle, ".."] + rest;
    assert all[1..] == [".."] + rest && all[1..][1..] == rest;
    assert Walk(false, all, []) == Walk(false, all[1..], [cycle]) == Walk(false, rest, [cycle][..0]);
  }

  /** What one job does to the files, and whether it succeeds. */
  function Performed(files: map<Path, Bytes>, job: Job, fault: Fault): (map<Path, Bytes>, bool) {
    match job
    case Exclusive(path, contents) =>
      if path in files || fault.CreateFails? then (files, false)
      else (match fault
            case WriteFails(partial, removed) => (if removed then files else files[path := partial], false)
            case FinishFails(removed) => (if removed then files else files[path := contents], false)
            case _ => (files[path := contents], true))
    case Replace(path, contents) =>
      (if fault.NoFault? || fault.FinishFails? then files[path := contents] else files, fault.NoFault?)
    case Print(_) => (files, fault.NoFault?)
  }

  /** Every file of `before` with a durable name is in `after`, unchanged. */
  predicate KeepsDurable(before: map<Path, Bytes>, after: map<Path, Bytes>) {
    forall path :: path in before && Durable(path) ==> path in after && after[path] == before[path]
  }

  /** Nothing but a new file at `path` distinguishes the two. */
  predicate AddsAtMost(before: map<Path, Bytes>, after: map<Path, Bytes>, path: Path) {
    after == before || (path !in before && path in after && after == before[path := after[path]])
  }

  function NamesOf(raw: seq<RawArtifact>): (r: seq<string>)
    ensures |r| == |raw| && forall i :: 0 <= i < |raw| ==> r[i] == NameOf(raw[i])
  {
    seq(|raw|, i requires 0 <= i < |raw| => NameOf(raw[i]))
  }

  ghost predicate AllDifferent(names: seq<string>) {
    forall i, j :: 0 <= i < j < |names| ==> names[i] != names[j]
  }

  lemma OneMoreName(raw: seq<RawArtifact>, i: nat)
    requires i < |raw| && AllDifferent(NamesOf(raw)[..i]) && NameOf(raw[i]) !in NamesOf(raw)[..i]
    ensures NamesOf(raw)[..i + 1] == NamesOf(raw)[..i] + [NameOf(raw[i])] && AllDifferent(NamesOf(raw)[..i + 1])
  {
    assert NamesOf(raw)[..i + 1] == NamesOf(raw)[..i] + [NameOf(raw[i])];
  }

  lemma SameNameTwice(raw: seq<RawArtifact>, i: nat)
    requires i < |raw| && NameOf(raw[i]) in NamesOf(raw)[..i]
    ensures Collides(raw)
  {
    var k :| 0 <= k < i && NamesOf(raw)[k] == NameOf(raw[i]);
    assert NameOf(raw[k]) == NameOf(raw[i]);
  }

  lemma NamesCollide(raw: seq<RawArtifact>)
    ensures Collides(raw) <==> !AllDifferent(NamesOf(raw))
  {
    if !AllDifferent(NamesOf(raw)) {
      var i, j :| 0 <= i < j < |raw| && NamesOf(raw)[i] == NamesOf(raw)[j];
      assert NameOf(raw[i]) == NameOf(raw[j]);
    }
  }

  class CommandEvidence {
    var raw: seq<RawArtifact>
    var artifacts: seq<Reference>

    constructor (raw: seq<RawArtifact>)
      ensures this.raw == raw && artifacts == []
    {
      this.raw, artifacts := raw, [];
    }
  }

  class Store {
    var files: map<Path, Bytes>
    var prints: seq<Bytes>

    constructor ()
      ensures files == map[] && prints == []
    {
      files, prints := map[], [];
    }

    /** `writeNewPrivateRootFile`: succeeds only on a free name, and on failure takes back no file but its own. */
    method WriteNew(path: Path, contents: Bytes, fault: Fault) returns (ok: bool)
      modifies this`files
      ensures ok <==> path !in old(files) && fault.NoFault?
      ensures (files, ok) == Performed(old(files), Exclusive(path, contents), fault)
      ensures AddsAtMost(old(files), files, path)
    {
      if path in files || fault.CreateFails? {
        return false;
      }
      ghost var before := files;
      files := files[path := ""];
      if fault.WriteFails? {
        files := files[path := fault.partial];
        assert files == before[path := fault.partial];
        if fault.removed {
          files := files - {path};
          assert files == before;
        }
        return false;
      }
      files := files[path := contents];
      assert files == before[path := contents];
      if fault.FinishFails? {
        if fault.removed {
          files := files - {path};
          assert files == before;
        }
        return false;
      }
      return true;
    }

    /**
     `writeAtomicPrivateRootFile` with replacement, and `writeAttestation`: the old content or the new one,
     nothing between.
     */
    method WriteReplace(path: Path, contents: Bytes, fault: Fault) returns (ok: bool)
      modifies this`files
      ensures (files, ok) == Performed(old(files), Replace(path, contents), fault)
    {
      if fault.CreateFails? || fault.WriteFails? {
        return false;
      }
      files := files[path := contents];
      return fault.NoFault?;
    }

    method CheckNames(raw: seq<RawArtifact>) returns (ok: bool)
      ensures ok <==> !Collides(raw)
    {
      var names: seq<string> := [];
      for i := 0 to |raw|
        invariant names == NamesOf(raw)[..i] && AllDifferent(NamesOf(raw)[..i])
      {
        var name := NameOf(raw[i]);
        if name in names {
          SameNameTwice(raw, i);
          return false;
        }
        OneMoreName(raw, i);
        names := names + [name];
      }
      assert NamesOf(raw)[..|raw|] == NamesOf(raw);
      NamesCollide(raw);
      return true;
    }

    /**
     `persistCommandEvidence`: raw records become files under the profile's directory and
     references with the hash of what was written. Names that collide after cleaning stop
     it before it writes anything.
     */
    method PersistCommandEvidence(cycle: string, profile: string, phase: string, evidence: CommandEvidence,
                                  fault: nat -> Fault)
      returns (ok: bool)
      modifies this`files, evidence
      ensures KeepsDurable(old(files), files)
      ensures forall path :: path in files && path !in old(files) ==> path.InProfile?
      ensures ok ==> Persisted(old(evidence.raw), cycle, profile, phase, old(evidence.artifacts), evidence.artifacts,
                               files)
      ensures ok ==> evidence.raw == []
      ensures !ok ==> evidence.raw == old(evidence.raw)
      ensures Collides(old(evidence.raw)) ==>
        !ok && files == old(files) && evidence.artifacts == old(evidence.artifacts)
    {
      var raw := evidence.raw;
      ok := CheckNames(raw);
      if !ok {
        return;
      }
      ok := StoreRecords(raw, cycle, profile, phase, evidence, fault);
      if ok {
        SortBySpec(evidence.artifacts, ByPath());
        evidence.artifacts := SortBy(evidence.artifacts, ByPath());
        evidence.raw := [];
      }
    }

    method StoreRecords(raw: seq<RawArtifact>, cycle: string, profile: string, phase: string,
                        evidence: CommandEvidence, fault: nat -> Fault)
      returns (ok: bool)
      modifies this`files, evidence`artifacts
      ensures KeepsDurable(old(files), files)
      ensures forall path :: path in files && path !in old(files) ==> path.InProfile?
      ensures ok ==> AllStored(raw, cycle, profile, phase, old(evidence.artifacts), evidence.artifacts, files)
    {
      for i := 0 to |raw|
        invariant KeepsDurable(old(files), files)
        invariant forall path :: path in files && path !in old(files) ==> path.InProfile?
        invariant AllStored(raw[..i], cycle, profile, phase, old(evidence.artifacts), evidence.artifacts, files)
      {
        if raw[i].contents.None? {
          return false;
        }
        if NameOf(raw[i]) == "/" {
          // Joined to its directory, a lone slash names the directory, which exists.
          return false;
        }
        SlashOnlyAlone(raw[i].name);
        var path := InProfile(cycle, profile, phase, NameOf(raw[i]));
        ghost var before := files;
        var stored := WriteNew(path, raw[i].contents.value, fault(i));
        if !stored {
          return false;
        }
        var reference := Reference(path, Sha256(raw[i].contents.value), raw[i].mediaType);
        StoredOneMore(raw, i, cycle, profile, phase, old(evidence.artifacts), evidence.artifacts, before, files,
                      reference);
        evidence.artifacts := evidence.artifacts + [reference];
      }
      assert raw[..|raw|] == raw;
      return true;
    }

    /** One of a cycle's own files, written once. */
    method ArchiveCycleFile(cycle: string, name: string, contents: Bytes, fault: Fault) returns (ok: bool)
      modifies this`files
      ensures ok <==> InCycle(cycle, name) !in old(files) && fault.NoFault?
      ensures (files, ok) == Performed(old(files), Exclusive(InCycle(cycle, name), contents), fault)
      ensures AddsAtMost(old(files), files, InCycle(cycle, name))
    {
      ok := WriteNew(InCycle(cycle, name), contents, fault);
    }
  }

  // ----- what the calls leave behind

  ghost predicate Collides(raw: seq<RawArtifact>) {
    exists i, j :: 0 <= i < j < |raw| && NameOf(raw[i]) == NameOf(raw[j])
  }

  /** The new references are those of the records, in order, and each names a file with exactly the record's bytes. */
  ghost predicate AllStored(raw: seq<RawArtifact>, cycle: string, profile: string, phase: string,
                            before: seq<Reference>, after: seq<Reference>, files: map<Path, Bytes>)
  {
    && |after| == |before| + |raw| && before <= after
    && forall i :: 0 <= i < |raw| ==> Stored(raw[i], cycle, profile, phase, after[|before| + i], files)
  }

  /** The references in the order of their paths, once all records are stored. */
  ghost predicate Persisted(raw: seq<RawArtifact>, cycle: string, profile: string, phase: string,
                            before: seq<Reference>, after: seq<Reference>, files: map<Path, Bytes>)
  {
    InOrder(after, ByPath())
    && exists written ::
      AllStored(raw, cycle, profile, phase, before, written, files) && multiset(after) == multiset(written)
  }

  ghost predicate Stored(raw: RawArtifact, cycle: string, profile: string, phase: string, r: Reference,
                         files: map<Path, Bytes>)
  {
    && raw.contents.Some? && r.mediaType == raw.mediaType && '/' !in NameOf(raw)
    && r.path == InProfile(cycle, profile, phase, NameOf(raw))
    && r.path in files && files[r.path] == raw.contents.value && Sha256(files[r.path]) == r.digest
  }

  lemma StoredOneMore(raw: seq<RawArtifact>, i: nat, cycle: string, profile: string, phase: string,
                      first: seq<Reference>, refs: seq<Reference>, before: map<Path, Bytes>, after: map<Path, Bytes>,
                        r: Reference)
    requires i < |raw| && AllStored(raw[..i], cycle, profile, phase, first, refs, before)
    requires r.path !in before && AddsAtMost(before, after, r.path) && Stored(raw[i], cycle, profile, phase, r, after)
    ensures AllStored(raw[..i + 1], cycle, profile, phase, first, refs + [r], after)
  {
    forall k | 0 <= k < i ensures Stored(raw[k], cycle, profile, phase, (refs + [r])[|first| + k], after) {
      assert raw[..i][k] == raw[k];
    }
  }
}
