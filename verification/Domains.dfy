/** Domain names, the domain table and the Traefik directory: one YAML file per bound domain. */
module Domains {
  import opened Wrappers
  import opened World
  import opened Text
  import opened Fleet

  // ---- names ----

  predicate DomainChar(ch: char) { 'a' <= ch <= 'z' || IsDigit(ch) || ch == '.' || ch == '-' }

  /** Letters, digits, dots and hyphens, starting with a letter or digit and ending with a letter. */
  predicate Normal(d: string) {
    && 1 <= |d| <= 253
    && (forall i :: 0 <= i < |d| ==> DomainChar(d[i]))
    && d[0] != '.' && d[0] != '-'
    && 'a' <= d[|d| - 1] <= 'z'
  }

  function TrimDot(d: string): string {
    if d != "" && d[|d| - 1] == '.' then d[..|d| - 1] else d
  }

  function Normalize(raw: string): Result<string, Error> {
    var d := TrimDot(TrimSpace(ToLower(raw)));
    if Normal(d) then Ok(d) else Err(InvalidDomain)
  }

  /** Normalising a normalised domain gives it back, and only normal domains come out. */
  lemma NormalizeIdempotent(raw: string)
    ensures Normalize(raw).Ok? ==> Normal(Normalize(raw).value) && Normalize(Normalize(raw).value) == Normalize(raw)
  {
    if Normalize(raw).Ok? {
      var d := Normalize(raw).value;
      assert ToLower(d) == d by {
        forall i | 0 <= i < |d| ensures LowerChar(d[i]) == d[i] { assert DomainChar(d[i]); }
      }
      assert DomainChar(d[0]) && !IsSpace(d[0]);
      assert TrimSpace(d) == d;
    }
  }

  lemma PaddedTrims(pre: string, core: string, post: string)
    requires AllSpace(pre) && AllSpace(post) && core != "" && !IsSpace(core[0]) && !IsSpace(core[|core| - 1])
    ensures TrimSpace(pre + core + post) == core
  {
    assert pre + core + post == pre + (core + post);
    TrimLeftOf(pre, core + post);
    TrimRightOf(core, post);
  }

  lemma SpelledTrims(low: string, d: string)
    requires Normal(d) && Spells(low, d)
    ensures TrimDot(TrimSpace(low)) == d
  {
    var pre, dot, post :| AllSpace(pre) && dot in {"", "."} && AllSpace(post) && low == pre + d + dot + post;
    var core := d + dot;
    assert DomainChar(d[0]) && core[0] == d[0];
    assert low == pre + core + post;
    PaddedTrims(pre, core, post);
    assert TrimDot(core) == d;
  }

  lemma TrimmedSpells(low: string)
    ensures Spells(low, TrimDot(TrimSpace(low)))
  {
    var pre := TrimLeftParts(low);
    var post := TrimRightParts(TrimLeft(low));
    var t := TrimSpace(low);
    var d, dot := TrimDot(t), if t != "" && t[|t| - 1] == '.' then "." else "";
    assert t == d + dot;
    assert low == pre + d + dot + post;
  }

  /**
   A text normalises to a domain if and only if that domain is normal and the
   text is, but for upper case, the domain with at most one dot after it and
   white space around.
   */
  lemma NormalizeExact(raw: string, d: string)
    ensures Normalize(raw) == Ok(d) <==> Normal(d) && Spells(ToLower(raw), d)
  {
    if Normal(d) && Spells(ToLower(raw), d) { SpelledTrims(ToLower(raw), d); }
    TrimmedSpells(ToLower(raw));
  }

  ghost predicate Spells(low: string, d: string) {
    exists pre, dot, post :: AllSpace(pre) && dot in {"", "."} && AllSpace(post) && low == pre + d + dot + post
  }

  function Sanitize(d: string): string {
    seq(|d|, i requires 0 <= i < |d| => if d[i] == '.' then '_' else d[i])
  }

  method SanitizeDomain(d: string) returns (b: string)
    ensures b == Sanitize(d)
    ensures |b| == |d| && forall i :: 0 <= i < |d| ==> b[i] == if d[i] == '.' then '_' else d[i]
  {
    b := [];
    for i := 0 to |d|
      invariant b == Sanitize(d)[..i]
    {
      if d[i] == '.' {
        b := b + ['_'];
      } else {
        b := b + [d[i]];
      }
    }
  }

  /** Traefik elements live in one name space per kind, across all dynamic files. */
  datatype Element =
    | HttpRouter(name: string) | HttpService(name: string) | TcpRouter(name: string) | TcpService(name: string)

  /** The elements a domain's file declares. */
  function Elements(d: string): set<Element> {
    var b := Sanitize(d);
    {HttpRouter("u-" + b), HttpService("s-" + b), TcpRouter("t-" + b), TcpService("t-" + b)}
  }

  lemma SanitizeInjective(d: string, e: string)
    requires Normal(d) && Normal(e) && Sanitize(d) == Sanitize(e)
    ensures d == e
  {
    assert |d| == |Sanitize(d)| == |Sanitize(e)| == |e|;
    forall i | 0 <= i < |d| ensures d[i] == e[i] {
      assert Sanitize(d)[i] == Sanitize(e)[i];
      assert DomainChar(d[i]) && DomainChar(e[i]);
    }
  }

  lemma PrefixedDiffer(p: string, q: string, x: string, y: string)
    requires |p| == |q| && x != y
    ensures p + x != q + y
  {
    assert (p + x)[|p|..] == x && (q + y)[|q|..] == y;
  }

  /** Two different bound domains never declare the same router or service. */
  lemma ElementsUnique(d: string, e: string)
    requires Normal(d) && Normal(e) && d != e
    ensures Elements(d) !! Elements(e)
  {
    if Sanitize(d) == Sanitize(e) { SanitizeInjective(d, e); }
    var x, y := Sanitize(d), Sanitize(e);
    forall element | element in Elements(d) ensures element !in Elements(e) {
      PrefixedDiffer("u-", "u-", x, y);
      PrefixedDiffer("s-", "s-", x, y);
      PrefixedDiffer("t-", "t-", x, y);
    }
  }

  // ---- files ----

  predicate IsYaml(f: string) { |f| >= 5 && f[|f| - 5..] == YAML }

  function BaseOf(f: string): string
    requires IsYaml(f)
  {
    f[..|f| - 5]
  }

  lemma FileNames(d: string)
    ensures IsYaml(FileOf(d)) && BaseOf(FileOf(d)) == d
    ensures !IsYaml(TempOf(d))
  {
    var t := TempOf(d);
    assert t[|t| - 5..][4] == t[|t| - 1] == 'p';
  }

  lemma FileOfBase(f: string)
    requires IsYaml(f)
    ensures FileOf(BaseOf(f)) == f
  {
  }

  type Dir = map<string, Content>

  /** WriteDomain writes a temp file and renames it over the target; either step can fail. */
  datatype Writing = Written | TempFailed(partial: bool) | RenameFailed

  function WriteFile(dir: Dir, d: string, content: Content, w: Writing): Dir {
    match w
    case Written => (dir - {TempOf(d)})[FileOf(d) := content]
    case TempFailed(partial) => if partial then dir[TempOf(d) := Foreign("")] else dir
    case RenameFailed => dir[TempOf(d) := content]
  }

  // ---- agreement of table and directory ----

  function Rendering(s: State, d: string): Content
    requires d in s.domains && s.domains[d].owner in s.users
  {
    Rendered(d, s.users[s.domains[d].owner].ip, s.domains[d].proxyProtocol)
  }

  /** The foreign key: every domain row belongs to a user row. */
  ghost predicate Owned(s: State) { forall d :: d in s.domains ==> s.domains[d].owner in s.users }

  /** The directory's YAML files are exactly the renderings of the domain rows. */
  ghost predicate DirOK(s: State) {
    && Owned(s)
    && (forall d :: d in s.domains ==> FileOf(d) in s.traefik && s.traefik[FileOf(d)] == Rendering(s, d))
    && (forall f :: f in s.traefik && IsYaml(f) ==> BaseOf(f) in s.domains)
  }

  // ---- AddDomain, DelDomain, SetDomainProtocol ----

  datatype AddFaults = AddFaults(v4Live: bool, rowOk: bool, write: Writing, undoOk: bool)
  datatype DelFaults = DelFaults(rowOk: bool, removeOk: bool, undoOk: bool)
  datatype SetFaults = SetFaults(rowOk: bool, write: Writing, undoOk: bool)

  function AddDomainError(s: State, name: Name, raw: string, f: AddFaults): Option<Error> {
    if !f.v4Live then Some(V4Disabled)
    else if name !in s.users then Some(NoSuchUser)
    else if Normalize(raw).Err? then Some(InvalidDomain)
    else if Normalize(raw).value in s.domains then Some(DomainTaken)
    else if !f.rowOk then Some(DBFailed)
    else if !f.write.Written? then Some(FileFailed)
    else None
  }

  function AddDomainState(s: State, name: Name, raw: string, on: bool, f: AddFaults): State {
    var e := AddDomainError(s, name, raw, f);
    if e.Some? && e != Some(FileFailed) then s
    else
      var d := Normalize(raw).value;
      s.(domains := if e.None? || !f.undoOk then s.domains[d := DomainRow(name, on)] else s.domains,
         traefik := WriteFile(s.traefik, d, Rendered(d, s.users[name].ip, on), f.write))
  }

  function DelDomainError(s: State, name: Name, raw: string, f: DelFaults): Option<Error> {
    if name !in s.users then Some(NoSuchUser)
    else if Normalize(raw).Err? then Some(InvalidDomain)
    else if Normalize(raw).value !in s.domains || s.domains[Normalize(raw).value].owner != name then Some(NoSuchDomain)
    else if !f.rowOk then Some(DBFailed)
    else if FileOf(Normalize(raw).value) in s.traefik && !f.removeOk then Some(FileFailed)
    else None
  }

  function DelDomainState(s: State, name: Name, raw: string, f: DelFaults): State {
    var e := DelDomainError(s, name, raw, f);
    if e.Some? && e != Some(FileFailed) then s
    else
      var d := Normalize(raw).value;
      if e.None? then s.(domains := s.domains - {d}, traefik := s.traefik - {FileOf(d)})
      else if f.undoOk then s
      else s.(domains := s.domains - {d})
  }

  function SetProtocolError(s: State, name: Name, raw: string, on: bool, f: SetFaults): Option<Error> {
    if name !in s.users then Some(NoSuchUser)
    else if Normalize(raw).Err? then Some(InvalidDomain)
    else if Normalize(raw).value !in s.domains || s.domains[Normalize(raw).value].owner != name then Some(NoSuchDomain)
    else if s.domains[Normalize(raw).value].proxyProtocol == on then None
    else if !f.rowOk then Some(DBFailed)
    else if !f.write.Written? then Some(FileFailed)
    else None
  }

  function SetProtocolState(s: State, name: Name, raw: string, on: bool, f: SetFaults): State {
    var e := SetProtocolError(s, name, raw, on, f);
    if e.Some? && e != Some(FileFailed) then s
    else
      var d := Normalize(raw).value;
      if s.domains[d].proxyProtocol == on then s
      else
        s.(domains := if e.None? || !f.undoOk then s.domains[d := DomainRow(name, on)] else s.domains,
           traefik := WriteFile(s.traefik, d, Rendered(d, s.users[name].ip, on), f.write))
  }

  /** A domain operation moves only domain rows and files; a new row has a known owner and a normal domain. */
  ghost predicate Touches(s: State, t: State) {
    && t == s.(domains := t.domains, traefik := t.traefik)
    && (forall d :: d in t.domains ==>
          t.domains[d].owner in s.users || (d in s.domains && t.domains[d].owner == s.domains[d].owner))
    && (forall d :: d in t.domains ==> d in s.domains || Normal(d))
  }

  lemma AddDomainTouches(s: State, name: Name, raw: string, on: bool, f: AddFaults)
    ensures Touches(s, AddDomainState(s, name, raw, on, f))
  {
  }

  lemma DelDomainTouches(s: State, name: Name, raw: string, f: DelFaults)
    ensures Touches(s, DelDomainState(s, name, raw, f))
  {
  }

  lemma SetProtocolTouches(s: State, name: Name, raw: string, on: bool, f: SetFaults)
    ensures Touches(s, SetProtocolState(s, name, raw, on, f))
  {
  }

  /** From dir to dir' exactly one YAML file was put in place. */
  ghost predicate Put(dir: Dir, dir': Dir, d: string, content: Content) {
    forall f :: IsYaml(f) ==>
      && (f in dir' <==> f in dir || f == FileOf(d))
      && (f in dir' ==> dir'[f] == if f == FileOf(d) then content else dir[f])
  }

  ghost predicate SameYaml(dir: Dir, dir': Dir) {
    forall f :: IsYaml(f) ==> (f in dir' <==> f in dir) && (f in dir' ==> dir'[f] == dir[f])
  }

  /** A write puts one YAML file in place or leaves all of them alone; temp files are never YAML files. */
  lemma WriteTouches(dir: Dir, d: string, content: Content, w: Writing)
    ensures if w.Written? then Put(dir, WriteFile(dir, d, content, w), d, content)
              else SameYaml(dir, WriteFile(dir, d, content, w))
  {
    FileNames(d);
  }

  lemma PutKeepsDir(s: State, t: State, d: string, row: DomainRow)
    requires DirOK(s) && row.owner in s.users && t.users == s.users && t.domains == s.domains[d := row]
    requires Put(s.traefik, t.traefik, d, Rendered(d, s.users[row.owner].ip, row.proxyProtocol))
    ensures DirOK(t)
  {
    forall x: string ensures IsYaml(FileOf(x)) && BaseOf(FileOf(x)) == x { FileNames(x); }
  }

  lemma SameYamlKeepsDir(s: State, t: State)
    requires DirOK(s) && t.users == s.users && t.domains == s.domains && SameYaml(s.traefik, t.traefik)
    ensures DirOK(t)
  {
    forall x: string ensures IsYaml(FileOf(x)) && BaseOf(FileOf(x)) == x { FileNames(x); }
  }

  lemma DropKeepsDir(s: State, t: State, d: string)
    requires DirOK(s) && t.users == s.users && t.domains == s.domains - {d} && t.traefik == s.traefik - {FileOf(d)}
    ensures DirOK(t)
  {
    forall x: string ensures IsYaml(FileOf(x)) && BaseOf(FileOf(x)) == x { FileNames(x); }
    forall f | IsYaml(f) ensures FileOf(BaseOf(f)) == f { FileOfBase(f); }
  }

  /**
   Binding a domain keeps table and directory in step exactly when the write, or
   failing that the compensating delete, works.
   */
  lemma AddDomainKeepsDir(s: State, name: Name, raw: string, on: bool, f: AddFaults)
    requires DirOK(s)
    ensures DirOK(AddDomainState(s, name, raw, on, f)) <==>
              (AddDomainError(s, name, raw, f) == Some(FileFailed) ==> f.undoOk)
  {
    var t, e := AddDomainState(s, name, raw, on, f), AddDomainError(s, name, raw, f);
    if e.None? || e == Some(FileFailed) {
      var d := Normalize(raw).value;
      WriteTouches(s.traefik, d, Rendered(d, s.users[name].ip, on), f.write);
      FileNames(d);
      if e.None? {
        PutKeepsDir(s, t, d, DomainRow(name, on));
      } else if f.undoOk {
        SameYamlKeepsDir(s, t);
      } else {
        assert d in t.domains && FileOf(d) !in t.traefik;
      }
    }
  }

  /** Unbinding keeps them in step exactly when the removal, or failing that the re-insert, works. */
  lemma DelDomainKeepsDir(s: State, name: Name, raw: string, f: DelFaults)
    requires DirOK(s)
    ensures DirOK(DelDomainState(s, name, raw, f)) <==>
              (DelDomainError(s, name, raw, f) == Some(FileFailed) ==> f.undoOk)
  {
    var t, e := DelDomainState(s, name, raw, f), DelDomainError(s, name, raw, f);
    if e.None? || e == Some(FileFailed) {
      var d := Normalize(raw).value;
      FileNames(d);
      if e.None? {
        DropKeepsDir(s, t, d);
      } else if !f.undoOk {
        assert FileOf(d) in t.traefik && BaseOf(FileOf(d)) !in t.domains;
      }
    }
  }

  /** Toggling the PROXY flag keeps them in step exactly when the write, or failing that the restore, works. */
  lemma SetProtocolKeepsDir(s: State, name: Name, raw: string, on: bool, f: SetFaults)
    requires DirOK(s)
    ensures DirOK(SetProtocolState(s, name, raw, on, f)) <==>
              (SetProtocolError(s, name, raw, on, f) == Some(FileFailed) ==> f.undoOk)
  {
    var t, e := SetProtocolState(s, name, raw, on, f), SetProtocolError(s, name, raw, on, f);
    if (e.None? || e == Some(FileFailed)) && s.domains[Normalize(raw).value].proxyProtocol != on {
      var d := Normalize(raw).value;
      WriteTouches(s.traefik, d, Rendered(d, s.users[name].ip, on), f.write);
      FileNames(d);
      if e.None? {
        PutKeepsDir(s, t, d, DomainRow(name, on));
      } else if f.undoOk {
        SameYamlKeepsDir(s, t);
      } else {
        assert t.traefik[FileOf(d)] == Rendering(s, d);
        assert Rendering(t, d).proxyProtocol == on;
      }
    }
  }
}
