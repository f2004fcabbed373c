/**
 Credential rotation: `ConfigFromSecret` (internal/credentials/loader.go), the
 client register (internal/xcclientset/clientset.go) and `buildClientSet` and
 `credentialWatcher.Reconcile` (cmd/main.go). Who owns which P12 temp file, and
 which client is served, over any sequence of Secret events.
 */
module Credentials {
  import opened Wrappers

  type Path = nat

  datatype Secret = Secret(apiToken: string, p12: string, password: string)

  datatype Config = Config(apiToken: string, certPath: Option<Path>, password: string)

  /** A client is known by the configuration it was built from. */
  datatype XCClient = XCClient(config: Config)

  /** The temp directory. Names at or above `next` have never been used. */
  datatype Files = Files(contents: map<Path, string>, next: Path)

  /** What the operating system and the client library do during one event. */
  datatype Luck = Luck(createOk: bool, writeOk: bool, removeOk: bool, buildOk: bool)

  /** One Secret event: the Secret as read (`None`: the read failed). */
  datatype Event = Event(secret: Option<Secret>, luck: Luck)

  datatype State = State(files: Files, current: Config, served: XCClient)

  // ----- Specification on values -----

  /** Exactly one kind of credential, and a certificate has a password. */
  predicate Acceptable(s: Secret) {
    && (s.apiToken != "") != (s.p12 != "")
    && (s.p12 != "" ==> s.password != "")
  }

  function Created(f: Files, content: string): Files {
    Files(f.contents[f.next := content], f.next + 1)
  }

  function Removed(f: Files, path: Path, ok: bool): Files {
    if ok then f.(contents := f.contents - {path}) else f
  }

  /** Loading a Secret: the configuration, if any, and the files left. */
  function Loaded(f: Files, s: Secret, luck: Luck): (Files, Option<Config>) {
    if !Acceptable(s) then (f, None)
    else if s.apiToken != "" then (f, Some(Config(s.apiToken, None, "")))
    else if !luck.createOk then (f, None)
    else if !luck.writeOk then (Removed(Created(f, ""), f.next, luck.removeOk), None)
    else (Created(f, s.p12), Some(Config("", Some(f.next), s.password)))
  }

  function RemovedCert(f: Files, c: Config, ok: bool): Files {
    if c.certPath.Some? then Removed(f, c.certPath.value, ok) else f
  }

  function Reconciled(st: State, ev: Event): State {
    if ev.secret.None? then st
    else
      var (f, cfg) := Loaded(st.files, ev.secret.value, ev.luck);
      if cfg.None? then st.(files := f)
      else if !ev.luck.buildOk then st.(files := RemovedCert(f, cfg.value, ev.luck.removeOk))
      else State(RemovedCert(f, st.current, ev.luck.removeOk), cfg.value, XCClient(cfg.value))
  }

  function Run(st: State, evs: seq<Event>): State {
    if evs == [] then st else Reconciled(Run(st, evs[..|evs| - 1]), evs[|evs| - 1])
  }

  // ----- The source's procedures -----

  class TempDir {
    var contents: map<Path, string>
    var next: Path

    function Listing(): Files
      reads this
    {
      Files(contents, next)
    }

    constructor ()
      ensures contents == map[]
    {
      contents, next := map[], 0;
    }

    method CreateTemp(ok: bool) returns (path: Option<Path>)
      modifies this
      ensures path == if ok then Some(old(next)) else None
      ensures Listing() == if ok then Created(old(Listing()), "") else old(Listing())
    {
      if !ok {
        return None;
      }
      path := Some(next);
      contents := contents[next := ""];
      next := next + 1;
    }

    method Write(path: Path, data: string, ok: bool)
      requires path in contents
      modifies this`contents
      ensures contents == if ok then old(contents)[path := data] else old(contents)
    {
      if ok {
        contents := contents[path := data];
      }
    }

    method Remove(path: Path, ok: bool)
      modifies this`contents
      ensures Listing() == Removed(old(Listing()), path, ok)
    {
      if ok {
        contents := contents - {path};
      }
    }
  }

  /** The lock makes each access atomic: a register. */
  class ClientSet {
    var client: XCClient

    constructor (client: XCClient)
      ensures this.client == client
    {
      this.client := client;
    }

    method Get() returns (c: XCClient)
      ensures c == client
    {
      c := client;
    }

    method Swap(client: XCClient)
      modifies this
      ensures this.client == client
    {
      this.client := client;
    }
  }

  method ConfigFromSecret(dir: TempDir, s: Secret, luck: Luck) returns (cfg: Option<Config>)
    modifies dir
    ensures (dir.Listing(), cfg) == Loaded(old(dir.Listing()), s, luck)
    ensures cfg.Some? <==>
              || (s.apiToken != "" && s.p12 == "")
              || (s.apiToken == "" && s.p12 != "" && s.password != "" && luck.createOk && luck.writeOk)
    ensures cfg.Some? && s.apiToken != "" ==> cfg.value == Config(s.apiToken, None, "") && dir.Listing() == old(dir.Listing())
    ensures cfg.Some? && s.apiToken == "" ==>
              && cfg.value == Config("", Some(old(dir.next)), s.password)
              && dir.contents == old(dir.contents)[old(dir.next) := s.p12]
  {
    var hasToken, hasP12 := s.apiToken != "", |s.p12| > 0;
    if hasToken && hasP12 {
      return None;
    }
    if !hasToken && !hasP12 {
      return None;
    }
    if hasToken {
      return Some(Config(s.apiToken, None, ""));
    }
    if s.password == "" {
      return None;
    }
    var tmp := dir.CreateTemp(luck.createOk);
    if tmp.None? {
      return None;
    }
    dir.Write(tmp.value, s.p12, luck.writeOk);
    if !luck.writeOk {
      dir.Remove(tmp.value, luck.removeOk);
      return None;
    }
    assert dir.contents == Created(old(dir.Listing()), s.p12).contents;
    return Some(Config("", tmp, s.password));
  }

  class CredentialWatcher {
    const cs: ClientSet
    const dir: TempDir
    var currentCfg: Config

    function Value(): State
      reads this, cs, dir
    {
      State(dir.Listing(), currentCfg, cs.client)
    }

    constructor (cs: ClientSet, dir: TempDir, initial: Config)
      ensures this.cs == cs && this.dir == dir && currentCfg == initial
    {
      this.cs, this.dir, currentCfg := cs, dir, initial;
    }

    method Reconcile(ev: Event)
      modifies this, cs, dir
      ensures Value() == Reconciled(old(Value()), ev)
    {
      if ev.secret.None? {
        return;
      }
      var cfg := ConfigFromSecret(dir, ev.secret.value, ev.luck);
      if cfg.None? {
        return;
      }
      if !ev.luck.buildOk {
        if cfg.value.certPath.Some? {
          dir.Remove(cfg.value.certPath.value, ev.luck.removeOk);
        }
        return;
      }
      var prev := currentCfg;
      cs.Swap(XCClient(cfg.value));
      currentCfg := cfg.value;
      if prev.certPath.Some? {
        dir.Remove(prev.certPath.value, ev.luck.removeOk);
      }
    }
  }

  /**
   Start-up. Unlike the watcher, it does not remove the P12 file when building the
   client fails; the process then exits.
   */
  method BuildClientSet(dir: TempDir, secret: Option<Secret>, luck: Luck) returns (cs: ClientSet?, cfg: Option<Config>)
    modifies dir
    ensures cs != null <==> cfg.Some?
    ensures cs != null ==> fresh(cs) && cs.client == XCClient(cfg.value)
    ensures secret.Some? ==> dir.Listing() == Loaded(old(dir.Listing()), secret.value, luck).0
    ensures secret.Some? ==> cfg == if luck.buildOk then Loaded(old(dir.Listing()), secret.value, luck).1 else None
    ensures secret.None? ==> cfg == None && dir.Listing() == old(dir.Listing())
  {
    if secret.None? {
      return null, None;
    }
    cfg := ConfigFromSecret(dir, secret.value, luck);
    if cfg.None? || !luck.buildOk {
      return null, None;
    }
    cs := new ClientSet(XCClient(cfg.value));
  }

  // ----- Conservation of files -----

  function CertOf(c: Config): set<Path> {
    if c.certPath.Some? then {c.certPath.value} else {}
  }

  /** Files on disk that no configuration in use names. */
  function Strays(st: State): set<Path> {
    st.files.contents.Keys - CertOf(st.current)
  }

  predicate Healthy(st: State) {
    && st.served == XCClient(st.current)
    && CertOf(st.current) <= st.files.contents.Keys
    && forall p | p in st.files.contents :: p < st.files.next
  }

  predicate Builds(ev: Event) {
    && ev.secret.Some? && Acceptable(ev.secret.value) && ev.luck.buildOk
    && (ev.secret.value.apiToken == "" ==> ev.luck.createOk && ev.luck.writeOk)
  }

  /** The file a step sets out to delete, if any: a half-made one, or the one just replaced. */
  function Doomed(st: State, ev: Event): set<Path> {
    if Builds(ev) then CertOf(st.current)
    else if ev.secret.Some? && Acceptable(ev.secret.value) && ev.secret.value.apiToken == "" && ev.luck.createOk
    then {st.files.next}
    else {}
  }

  /**
   One event: the served client stays the one of the current configuration, whose
   P12 file is on disk, and the only files that can be left behind are those whose
   deletion failed in this very step.
   */
  lemma StepConserves(st: State, ev: Event)
    requires Healthy(st)
    ensures Healthy(Reconciled(st, ev))
    ensures Strays(Reconciled(st, ev)) == Strays(st) + if ev.luck.removeOk then {} else Doomed(st, ev)
  {
    var st' := Reconciled(st, ev);
    assert st.files.next !in st.files.contents;
    assert st'.files.next >= st.files.next;
    if Builds(ev) {
      assert st'.current.certPath.Some? ==> st'.current.certPath.value == st.files.next;
    }
  }

  predicate SomeDeletionFailed(st: State, evs: seq<Event>) {
    exists i | 0 <= i < |evs| :: !evs[i].luck.removeOk && Doomed(Run(st, evs[..i]), evs[i]) != {}
  }

  /**
   Over any sequence of Secret events: the P12 files on disk are exactly the one the
   current configuration names, or none, if and only if no deletion ever failed.
   */
  lemma {:induction false} FilesAreConserved(st: State, evs: seq<Event>)
    requires Healthy(st) && Strays(st) == {}
    ensures Healthy(Run(st, evs))
    ensures Run(st, evs).files.contents.Keys == CertOf(Run(st, evs).current) <==> !SomeDeletionFailed(st, evs)
  {
    if evs != [] {
      var init, last := evs[..|evs| - 1], evs[|evs| - 1];
      var before := Run(st, init);
      FilesAreConserved(st, init);
      StepConserves(before, last);
      assert forall i | 0 <= i < |init| :: evs[..i] == init[..i] && evs[i] == init[i];
      assert SomeDeletionFailed(st, evs) <==> SomeDeletionFailed(st, init) || (!last.luck.removeOk && Doomed(before, last) != {});
      assert Strays(before) == {} <==> before.files.contents.Keys == CertOf(before.current);
      var after := Run(st, evs);
      assert Strays(after) == {} <==> after.files.contents.Keys == CertOf(after.current);
    } else {
      assert st.files.contents.Keys == CertOf(st.current);
    }
  }

  /** The client works from this Secret: same token, or same certificate content and password. */
  predicate ServesSecret(st: State, s: Secret) {
    var c := st.served.config;
    && c.apiToken == s.apiToken
    && (c.certPath.Some? <==> s.p12 != "")
    && (c.certPath.Some? ==>
          c.certPath.value in st.files.contents && st.files.contents[c.certPath.value] == s.p12 && c.password == s.password)
  }

  /** Which events build a client: a readable Secret with either a token or a certificate and its password, and no failure on the way. */
  lemma BuildsByItsFields(ev: Event)
    ensures Builds(ev) <==>
              match ev.secret
              case None => false
              case Some(s) =>
                && ev.luck.buildOk
                && if s.apiToken != "" then s.p12 == "" else s.p12 != "" && s.password != "" && ev.luck.createOk && ev.luck.writeOk
  {
  }

  /** The last Secret of the sequence that built, if any did. */
  function LastBuilt(evs: seq<Event>): Option<Secret> {
    if evs == [] then None
    else if Builds(evs[|evs| - 1]) then evs[|evs| - 1].secret
    else LastBuilt(evs[..|evs| - 1])
  }

  lemma StepServes(st: State, ev: Event, s: Secret)
    requires Healthy(st)
    requires ServesSecret(st, s)
    ensures ServesSecret(Reconciled(st, ev), if Builds(ev) then ev.secret.value else s)
  {
    assert st.files.next !in st.files.contents;
    var c := st.served.config;
    assert c.certPath.Some? ==> c.certPath.value != st.files.next;
  }

  /** The served client is always the one of the last Secret that built, with its certificate file intact. */
  lemma {:induction false} LastBuiltIsServed(st: State, initial: Secret, evs: seq<Event>)
    requires Healthy(st) && Strays(st) == {} && ServesSecret(st, initial)
    ensures ServesSecret(Run(st, evs), if LastBuilt(evs).Some? then LastBuilt(evs).value else initial)
  {
    if evs != [] {
      var init := evs[..|evs| - 1];
      LastBuiltIsServed(st, initial, init);
      FilesAreConserved(st, init);
      StepServes(Run(st, init), evs[|evs| - 1], if LastBuilt(init).Some? then LastBuilt(init).value else initial);
    }
  }
}
