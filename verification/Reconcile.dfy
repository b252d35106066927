/** SyncAllDomains: bringing any Traefik directory back in step with the domain table. */
module Reconcile {
  import opened Wrappers
  import opened World
  import opened Domains
  import Fleet

  /** Writes that do not succeed, whether the directory can be listed, and the leftovers that cannot be removed. */
  datatype Faults = Faults(badWrites: map<string, Writing>, listOk: bool, stuck: set<string>)

  function WriteOutcome(f: Faults, d: string): Writing { if d in f.badWrites then f.badWrites[d] else Written }

  /** The domain rows joined with their owners. */
  function Listed(s: State): set<string> { set d | d in s.domains && s.domains[d].owner in s.users }

  function Get(dir: Dir, k: string): Option<Content> { if k in dir then Some(dir[k]) else None }

  const TEMP_SUFFIX := YAML + ".tmp"

  predicate IsTemp(k: string) { |k| >= 9 && k[|k| - 9..] == TEMP_SUFFIX }

  function TempBase(k: string): string
    requires IsTemp(k)
  {
    k[..|k| - 9]
  }

  /** A file of the directory once the given domains have been rewritten. */
  function AfterWrites(s: State, f: Faults, done: set<string>, k: string): Option<Content>
    requires done <= Listed(s)
  {
    if IsTemp(k) && TempBase(k) in done then
      match WriteOutcome(f, TempBase(k))
      case Written => None
      case TempFailed(partial) => if partial then Some(Foreign("")) else Get(s.traefik, k)
      case RenameFailed => Some(Rendering(s, TempBase(k)))
    else if IsYaml(k) && BaseOf(k) in done && WriteOutcome(f, BaseOf(k)).Written? then Some(Rendering(s, BaseOf(k)))
    else Get(s.traefik, k)
  }

  /** Whether a file is a leftover the run removes. */
  predicate Swept(s: State, f: Faults, k: string) {
    IsYaml(k) && BaseOf(k) !in Listed(s) && f.listOk && BaseOf(k) !in f.stuck
  }

  function FileAfter(s: State, f: Faults, k: string): Option<Content> {
    if Swept(s, f, k) then None else AfterWrites(s, f, Listed(s), k)
  }

  function Candidates(s: State): set<string> {
    s.traefik.Keys + (set d | d in Listed(s) :: FileOf(d)) + (set d | d in Listed(s) :: TempOf(d))
  }

  function SyncState(s: State, f: Faults): State {
    s.(traefik := map k | k in Candidates(s) && FileAfter(s, f, k).Some? :: FileAfter(s, f, k).value)
  }

  predicate SyncFails(s: State, f: Faults) {
    || !f.listOk
    || (exists d :: d in Listed(s) && !WriteOutcome(f, d).Written?)
    || (exists k :: k in s.traefik && IsYaml(k) && BaseOf(k) !in Listed(s) && BaseOf(k) in f.stuck)
  }

  lemma TempNames(d: string)
    ensures IsTemp(TempOf(d)) && TempBase(TempOf(d)) == d
    ensures forall k :: IsTemp(k) ==> !IsYaml(k) && TempOf(TempBase(k)) == k
  {
    forall k | IsTemp(k) ensures !IsYaml(k) && TempOf(TempBase(k)) == k {
      assert k[|k| - 9..][4] == k[|k| - 5] == 'l';
      assert k[|k| - 5..][0] == k[|k| - 5];
    }
  }

  lemma FileIsCandidate(s: State, f: Faults, k: string)
    requires FileAfter(s, f, k).Some?
    ensures k in Candidates(s)
  {
    if k !in s.traefik {
      if IsTemp(k) {
        TempNames("");
        assert TempOf(TempBase(k)) == k;
      } else {
        FileOfBase(k);
      }
    }
  }

  /** The closed form covers every file: what it does not list is not there. */
  lemma FilesAfter(s: State, f: Faults, k: string)
    ensures Get(SyncState(s, f).traefik, k) == FileAfter(s, f, k)
  {
    if FileAfter(s, f, k).Some? { FileIsCandidate(s, f, k); }
  }

  /** Rewriting one more domain extends the set of rewritten ones. */
  lemma WriteStep(s: State, f: Faults, done: set<string>, d: string, dir: Dir, k: string)
    requires done <= Listed(s) && d in Listed(s) && d !in done
    requires Get(dir, k) == AfterWrites(s, f, done, k)
    ensures Get(WriteFile(dir, d, Rendering(s, d), WriteOutcome(f, d)), k) == AfterWrites(s, f, done + {d}, k)
  {
    TempNames(d);
    FileNames(d);
    if IsYaml(k) { FileOfBase(k); }
  }

  /** A directory with the rewritten files only is the outcome of a run that cannot list it. */
  lemma WritesOnly(s: State, f: Faults, dir: Dir)
    requires !f.listOk && forall k :: Get(dir, k) == AfterWrites(s, f, Listed(s), k)
    ensures dir == SyncState(s, f).traefik
  {
    forall k ensures Get(dir, k) == Get(SyncState(s, f).traefik, k) { FilesAfter(s, f, k); }
    SameFiles(dir, SyncState(s, f).traefik);
  }

  /** ListFiles: the names of a directory's YAML files without the suffix. */
  function Bases(dir: Dir): set<string> { set k | k in dir && IsYaml(k) :: BaseOf(k) }

  lemma BaseHasFile(dir: Dir, b: string)
    requires b in Bases(dir)
    ensures FileOf(b) in dir
  {
    var k :| k in dir && IsYaml(k) && BaseOf(k) == b;
    FileOfBase(k);
  }

  /** Removing one more leftover. */
  lemma SweepStep(dir: Dir, gone: set<string>, b: string)
    requires b in Bases(dir) && b !in gone
    ensures FileOf(b) in dir - Fleet.YamlFiles(gone)
    ensures dir - Fleet.YamlFiles(gone) - {FileOf(b)} == dir - Fleet.YamlFiles(gone + {b})
  {
    BaseHasFile(dir, b);
    YamlFilesExact(gone, b);
    assert Fleet.YamlFiles(gone + {b}) == Fleet.YamlFiles(gone) + {FileOf(b)};
  }

  /** Rewriting every known domain and then sweeping the leftovers gives the outcome of the run. */
  lemma WritesThenSweep(s: State, f: Faults, rewritten: Dir)
    requires f.listOk && forall k :: Get(rewritten, k) == AfterWrites(s, f, Listed(s), k)
    ensures rewritten - Fleet.YamlFiles(Bases(rewritten) - Listed(s) - f.stuck) == SyncState(s, f).traefik
    ensures (Bases(rewritten) - Listed(s)) * f.stuck != {} <==>
              exists k :: k in s.traefik && IsYaml(k) && BaseOf(k) !in Listed(s) && BaseOf(k) in f.stuck
  {
    var gone := Bases(rewritten) - Listed(s) - f.stuck;
    var dir := rewritten - Fleet.YamlFiles(gone);
    forall k ensures Get(dir, k) == Get(SyncState(s, f).traefik, k) {
      FilesAfter(s, f, k);
      assert Get(rewritten, k) == AfterWrites(s, f, Listed(s), k);
      InYamlFiles(gone, k);
    }
    SameFiles(dir, SyncState(s, f).traefik);
    forall k | IsYaml(k) && BaseOf(k) !in Listed(s) ensures k in rewritten <==> k in s.traefik {
      assert Get(rewritten, k) == AfterWrites(s, f, Listed(s), k);
      TempNames("");
    }
    if exists k :: k in s.traefik && IsYaml(k) && BaseOf(k) !in Listed(s) && BaseOf(k) in f.stuck {
      var k :| k in s.traefik && IsYaml(k) && BaseOf(k) !in Listed(s) && BaseOf(k) in f.stuck;
      assert BaseOf(k) in (Bases(rewritten) - Listed(s)) * f.stuck;
    }
  }

  lemma InYamlFiles(bases: set<string>, k: string)
    ensures k in Fleet.YamlFiles(bases) <==> IsYaml(k) && BaseOf(k) in bases
  {
    if IsYaml(k) {
      FileOfBase(k);
      YamlFilesExact(bases, BaseOf(k));
    } else if k in Fleet.YamlFiles(bases) {
      var d :| d in bases && k == FileOf(d);
      FileNames(d);
    }
  }

  // ---- guarantees ----

  /** What a successful run makes of any file. */
  lemma CleanFile(s: State, f: Faults, k: string)
    requires !SyncFails(s, f)
    ensures Get(SyncState(s, f).traefik, k) ==
            if IsTemp(k) && TempBase(k) in Listed(s) then None
            else if IsYaml(k) then (if BaseOf(k) in Listed(s) then Some(Rendering(s, BaseOf(k))) else None)
            else Get(s.traefik, k)
  {
    FilesAfter(s, f, k);
    TempNames("");
  }

  /**
   From any directory contents, a run that returns nil leaves exactly one file
   per domain row, with the right contents, and no other YAML file.
   */
  lemma SyncRepairs(s: State, f: Faults)
    requires Owned(s) && !SyncFails(s, f)
    ensures DirOK(SyncState(s, f))
  {
    var t := SyncState(s, f);
    forall d | d in s.domains ensures FileOf(d) in t.traefik && t.traefik[FileOf(d)] == Rendering(s, d) {
      FileNames(d);
      TempNames("");
      CleanFile(s, f, FileOf(d));
    }
    forall k | k in t.traefik && IsYaml(k) ensures BaseOf(k) in t.domains {
      CleanFile(s, f, k);
      TempNames("");
    }
    assert forall d :: d in s.domains ==> Rendering(t, d) == Rendering(s, d);
  }

  /** Even a run that errors never loses the file of a known domain. */
  lemma SyncNeverRemovesKnown(s: State, f: Faults, d: string)
    requires d in Listed(s) && FileOf(d) in s.traefik
    ensures FileOf(d) in SyncState(s, f).traefik
    ensures SyncState(s, f).traefik[FileOf(d)] in {s.traefik[FileOf(d)], Rendering(s, d)}
  {
    FileNames(d);
    TempNames("");
    FilesAfter(s, f, FileOf(d));
  }

  /** On a directory already in step a run changes no YAML file, whatever fails. */
  lemma SyncKeepsDir(s: State, f: Faults)
    requires DirOK(s)
    ensures SameYaml(s.traefik, SyncState(s, f).traefik) && DirOK(SyncState(s, f))
  {
    var t := SyncState(s, f);
    forall k | IsYaml(k) ensures Get(t.traefik, k) == Get(s.traefik, k) {
      FilesAfter(s, f, k);
      TempNames("");
      FileOfBase(k);
    }
    forall k | IsYaml(k)
        ensures (k in t.traefik <==> k in s.traefik) && (k in t.traefik ==> t.traefik[k] == s.traefik[k]) {
      assert Get(t.traefik, k) == Get(s.traefik, k);
    }
    SameYamlKeepsDir(s, t);
  }

  /** A second run after a successful one changes nothing. */
  lemma SyncIdempotent(s: State, f: Faults, g: Faults)
    requires !SyncFails(s, f) && !SyncFails(SyncState(s, f), g)
    ensures SyncState(SyncState(s, f), g) == SyncState(s, f)
  {
    var t := SyncState(s, f);
    var t' := SyncState(t, g);
    assert Listed(t) == Listed(s);
    forall k ensures Get(t'.traefik, k) == Get(t.traefik, k) {
      CleanFile(s, f, k);
      CleanFile(t, g, k);
    }
    SameFiles(t'.traefik, t.traefik);
  }

  lemma SameFiles(a: Dir, b: Dir)
    requires forall k :: Get(a, k) == Get(b, k)
    ensures a == b
  {
    forall k ensures k in a <==> k in b { assert Get(a, k) == Get(b, k); }
    forall k | k in a ensures a[k] == b[k] { assert Get(a, k) == Get(b, k); }
  }

  lemma YamlFilesExact(domains: set<string>, d: string)
    ensures FileOf(d) in Fleet.YamlFiles(domains) <==> d in domains
  {
    if FileOf(d) in Fleet.YamlFiles(domains) {
      var e :| e in domains && FileOf(d) == FileOf(e);
      FileNames(d);
      FileNames(e);
    }
  }

  /** Dropping a user's row and domains with all their files. */
  lemma DropOwner(s: State, t: State, name: Name)
    requires DirOK(s)
    requires t.users == s.users - {name} && t.domains == s.domains - Fleet.DomainsOf(s, name)
    requires t.traefik == s.traefik - Fleet.YamlFiles(Fleet.DomainsOf(s, name))
    ensures DirOK(t)
  {
    forall d | d in t.domains ensures FileOf(d) in t.traefik && t.traefik[FileOf(d)] == s.traefik[FileOf(d)] {
      YamlFilesExact(Fleet.DomainsOf(s, name), d);
    }
    forall k | k in t.traefik && IsYaml(k) ensures BaseOf(k) in t.domains {
      FileOfBase(k);
      YamlFilesExact(Fleet.DomainsOf(s, name), BaseOf(k));
    }
  }

  /** A file that outlives its domain row. */
  lemma FileOutlives(s: State, t: State, d: string, dropped: set<string>)
    requires DirOK(s) && d in s.domains && d !in dropped
    requires d !in t.domains && t.traefik == s.traefik - Fleet.YamlFiles(dropped)
    ensures !DirOK(t)
  {
    YamlFilesExact(dropped, d);
    FileNames(d);
    assert FileOf(d) in t.traefik && BaseOf(FileOf(d)) !in t.domains;
  }

  lemma DelTouchesDir(c: Config, s: State, name: Name, f: Fleet.DelFaults)
    requires Fleet.ValidName(name) && name in s.users && f.remove.Removed?
    ensures var t, gone := Fleet.DelState(c, s, name, f), Fleet.DomainsOf(s, name);
            && t.users == (if f.rowDeleteOk then s.users - {name} else s.users)
            && t.domains == (if f.rowDeleteOk then s.domains - gone else s.domains)
            && t.traefik == if f.rowDeleteOk && f.sessionsOk then s.traefik - Fleet.YamlFiles(gone - f.stuckFiles)
                  else s.traefik
  {
  }

  /**
   Del keeps table and directory in step exactly when the row stays, or it
   bound no domain, or all its files are removed: an error after the row is
   gone, or a file that cannot be removed, leaves files without a row.
   */
  lemma DelKeepsDir(c: Config, s: State, name: Name, f: Fleet.DelFaults)
    requires DirOK(s)
    requires Fleet.ValidName(name) && name in s.users && f.remove.Removed?
    ensures DirOK(Fleet.DelState(c, s, name, f)) <==>
              (!f.rowDeleteOk || Fleet.DomainsOf(s, name) == {}
                  || (f.sessionsOk && Fleet.DomainsOf(s, name) !! f.stuckFiles))
  {
    DelTouchesDir(c, s, name, f);
    var gone := Fleet.DomainsOf(s, name);
    if f.rowDeleteOk {
      DroppedFilesExact(s, Fleet.DelState(c, s, name, f), name, if f.sessionsOk then gone - f.stuckFiles else {});
    }
  }

  /** A user dropped with some of its files: in step exactly when those were all. */
  lemma DroppedFilesExact(s: State, t: State, name: Name, dropped: set<string>)
    requires DirOK(s) && dropped <= Fleet.DomainsOf(s, name)
    requires t.users == s.users - {name} && t.domains == s.domains - Fleet.DomainsOf(s, name)
    requires t.traefik == s.traefik - Fleet.YamlFiles(dropped) || (dropped == {} && t.traefik == s.traefik)
    ensures DirOK(t) <==> dropped == Fleet.DomainsOf(s, name)
  {
    assert dropped == {} ==> s.traefik - Fleet.YamlFiles(dropped) == s.traefik;
    if dropped == Fleet.DomainsOf(s, name) {
      DropOwner(s, t, name);
    } else {
      assert dropped + (Fleet.DomainsOf(s, name) - dropped) == Fleet.DomainsOf(s, name);
      var d :| d in Fleet.DomainsOf(s, name) - dropped;
      FileOutlives(s, t, d, dropped);
    }
  }
}
