/** The receiver-side cache of foreign entries: one append-only file per source. */
module PeerLogs {
  import opened Collections
  import opened Entries
  import opened SignedLogs

  type Files = map<string, seq<Entry>>

  /** Who keeps the cache, and the signature and identity-binding check it applies. */
  datatype Gate = Gate(own: Option<string>, verify: Entry -> bool) {
    predicate Acceptable(e: Entry) {
      own != Some(e.reporter) && verify(e)
    }

    /** What collision-free hashing and the hex digest format give for verified entries. */
    ghost predicate Sound() {
      && (forall a, b :: verify(a) && verify(b) && a.hash == b.hash ==> a == b)
      && (forall e :: verify(e) ==> e.hash != "" && e.hash != GENESIS)
    }
  }

  datatype Verdict = Stored | Duplicate | SameIdentity | Unverified {
    predicate Rejected() {
      SameIdentity? || Unverified?
    }
  }

  function FileOf(files: Files, source: string): seq<Entry> {
    if source in files then files[source] else []
  }

  ghost predicate HoldsHash(file: seq<Entry>, hash: string) {
    exists x :: x in file && x.hash == hash
  }

  lemma HoldsHashAfterAppend(file: seq<Entry>, e: Entry)
    ensures forall h :: HoldsHash(file + [e], h) <==> h == e.hash || HoldsHash(file, h)
  {
    assert (file + [e])[|file|] == e;
    forall h | HoldsHash(file, h) ensures HoldsHash(file + [e], h) {
      var x :| x in file && x.hash == h;
      assert x in file + [e];
    }
  }

  /** The entry is cached under its reporter (entries are told apart by hash). */
  ghost predicate Holds(files: Files, e: Entry) {
    HoldsHash(FileOf(files, e.reporter), e.hash)
  }

  /** The specification of `accept_entry` on the files. */
  ghost function Accept(gate: Gate, files: Files, e: Entry): (Files, Verdict) {
    if gate.own == Some(e.reporter) then (files, SameIdentity)
    else if !gate.verify(e) then (files, Unverified)
    else if Holds(files, e) then (files, Duplicate)
    else (files[e.reporter := FileOf(files, e.reporter) + [e]], Stored)
  }

  /** Each file holds verified entries of its own source only, no hash twice, and never our own. */
  ghost predicate WellKept(gate: Gate, files: Files) {
    forall s :: s in files ==>
      && files[s] != []
      && gate.own != Some(s)
      && DistinctHashes(files[s])
      && forall e :: e in files[s] ==> e.reporter == s && gate.verify(e)
  }

  /** Nothing is ever rewritten or removed. */
  ghost predicate Grown(before: Files, after: Files) {
    forall s :: s in before ==> s in after && before[s] <= after[s]
  }

  lemma AcceptKeepsFiles(gate: Gate, files: Files, e: Entry)
    requires WellKept(gate, files)
    ensures WellKept(gate, Accept(gate, files, e).0)
    ensures Grown(files, Accept(gate, files, e).0)
    ensures Accept(gate, files, e).1.Rejected() <==> !gate.Acceptable(e)
    ensures gate.Acceptable(e) ==> Holds(Accept(gate, files, e).0, e)
    ensures forall s, x :: x in FileOf(Accept(gate, files, e).0, s) ==>
              x in FileOf(files, s) || (x == e && s == e.reporter && gate.Acceptable(e))
  {
    var (after, verdict) := Accept(gate, files, e);
    if verdict.Stored? {
      var file := FileOf(files, e.reporter);
      assert forall i :: 0 <= i < |file| ==> file[i] in file;
      assert after[e.reporter][|file|] == e;
    }
  }

  class PeerLog {
    const gate: Gate
    var files: Files
    var seen: map<string, set<string>>
    var latest: map<string, Option<string>>

    /** Every scanned index entry is exactly what a rescan of its file would compute. */
    ghost predicate Valid() reads this {
      && WellKept(gate, files)
      && seen.Keys == latest.Keys
      && (forall s :: s in seen ==> IsIndexOf(seen[s], latest[s], FileOf(files, s)))
    }

    static ghost predicate IsIndexOf(hashes: set<string>, tail: Option<string>, file: seq<Entry>) {
      && (forall h :: h in hashes <==> HoldsHash(file, h))
      && tail == if file == [] then None else Some(file[|file| - 1].hash)
    }

    /** A (re)start opens whatever files an earlier process left, with nothing indexed yet. */
    constructor (gate: Gate, files: Files)
      requires WellKept(gate, files)
      ensures Valid() && this.gate == gate && this.files == files
    {
      this.gate := gate;
      this.files := files;
      seen := map[];
      latest := map[];
    }

    method AcceptEntry(e: Entry) returns (verdict: Verdict)
      requires Valid()
      modifies this
      ensures Valid()
      ensures (files, verdict) == Accept(gate, old(files), e)
      ensures verdict.SameIdentity? <==> gate.own == Some(e.reporter)
      ensures verdict.Unverified? <==> gate.own != Some(e.reporter) && !gate.verify(e)
      ensures verdict.Stored? <==>
                && gate.own != Some(e.reporter) && gate.verify(e)
                && !(e.reporter in old(files) && exists x :: x in old(files)[e.reporter] && x.hash == e.hash)
      ensures !verdict.Stored? ==> files == old(files)
      ensures verdict.Stored? ==>
                files == old(files)[e.reporter := (if e.reporter in old(files) then old(files)[e.reporter] else []) + [e]]
    {
      if gate.own == Some(e.reporter) {
        return SameIdentity;
      }
      if !gate.verify(e) {
        return Unverified;
      }
      var known := HasEntryHash(e.reporter, e.hash);
      if known {
        return Duplicate;
      }
      AcceptKeepsFiles(gate, files, e);
      var file := FileOf(files, e.reporter);
      HoldsHashAfterAppend(file, e);
      files := files[e.reporter := file + [e]];
      seen := seen[e.reporter := seen[e.reporter] + {e.hash}];
      latest := latest[e.reporter := Some(e.hash)];
      assert IsIndexOf(seen[e.reporter], latest[e.reporter], files[e.reporter]);
      verdict := Stored;
    }

    static method ScanFile(file: seq<Entry>) returns (hashes: set<string>, tail: Option<string>)
      ensures IsIndexOf(hashes, tail, file)
    {
      hashes, tail := {}, None;
      for i := 0 to |file|
        invariant IsIndexOf(hashes, tail, file[..i])
      {
        assert file[..i + 1] == file[..i] + [file[i]];
        HoldsHashAfterAppend(file[..i], file[i]);
        hashes := hashes + {file[i].hash};
        tail := Some(file[i].hash);
      }
      assert file[..|file|] == file;
    }

    /** Answers from the index, scanning the source's file on first touch. */
    method HasEntryHash(source: string, hash: string) returns (known: bool)
      requires Valid()
      modifies this`seen, this`latest
      ensures Valid() && source in latest
      ensures known <==> HoldsHash(FileOf(files, source), hash)
    {
      if source !in seen {
        var hashes, tail := ScanFile(FileOf(files, source));
        seen := seen[source := hashes];
        latest := latest[source := tail];
      }
      known := hash in seen[source];
    }

    /** The tail hash of a source's file, indexed or not. */
    method LatestHashFor(source: string) returns (tail: Option<string>)
      requires Valid()
      modifies this`seen, this`latest
      ensures Valid()
      ensures tail == if FileOf(files, source) == [] then None else Some(Head(FileOf(files, source)))
    {
      if source !in latest {
        var _ := HasEntryHash(source, "");
      }
      tail := latest[source];
    }

    /** The known sources, in whatever order the directory listing has them. */
    method ListSources() returns (sources: seq<string>)
      ensures forall s :: s in sources <==> s in files
      ensures forall i, j :: 0 <= i < j < |sources| ==> sources[i] != sources[j]
    {
      sources := [];
      var rest := files.Keys;
      while rest != {}
        invariant rest <= files.Keys
        invariant forall s :: s in sources <==> s in files && s !in rest
        invariant forall i, j :: 0 <= i < j < |sources| ==> sources[i] != sources[j]
        decreases rest
      {
        var s :| s in rest;
        assert forall i :: 0 <= i < |sources| ==> sources[i] in sources;
        sources := sources + [s];
        rest := rest - {s};
      }
    }
  }
}
