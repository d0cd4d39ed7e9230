/** The enrollment gate's state machine, on values. Minted codes and tokens are
    parameters; None stands for a failing random source. */
module GateSpec {
  import opened Options

  const MAX_FAILURES := 10
  /** One minute, in milliseconds. */
  const LOCKOUT := 60_000

  datatype ClaimResult = Token(token: string) | AlreadyClaimed | BadCode | RateLimited | MintFailed

  datatype ReleaseResult = Code(code: string) | Forbidden | NoCode

  /** What is in the state file; one of token and code is set. */
  datatype FileState = FileState(token: string, owner: string, code: string)

  datatype Disk = Absent | Corrupt | Holds(st: FileState)

  datatype Gate = Gate(disabled: bool, preauth: bool, resumed: bool, token: string, code: string,
                       claimed: bool, owner: string, failures: nat, window: int)

  /** A missing or unreadable file counts as unclaimed. */
  function ReadDisk(d: Disk): FileState {
    if d.Holds? then d.st else FileState("", "", "")
  }

  function Fresh(): Gate {
    Gate(false, false, false, "", "", false, "", 0, 0)
  }

  /** The gate a process starts with, and what it writes; None when it cannot start. */
  function Boot(disabled: bool, preauth: string, d: Disk, mint: Option<string>): Option<(Gate, Disk)> {
    if disabled then Some((Fresh().(disabled := true), d))
    else if preauth != "" then Some((Fresh().(preauth := true, token := preauth, claimed := true), d))
    else if ReadDisk(d).token != "" then
      Some((Fresh().(token := ReadDisk(d).token, owner := ReadDisk(d).owner, claimed := true, resumed := true), d))
    else if ReadDisk(d).code != "" then Some((Fresh().(code := ReadDisk(d).code), d))
    else if mint.None? then None
    else Some((Fresh().(code := mint.value), Holds(FileState("", "", mint.value))))
  }

  predicate Authorized(g: Gate, bearer: string) {
    g.disabled || (g.token != "" && g.token == bearer)
  }

  /** The attempt budget: a spent one is restored once more than a minute has passed since
      its first attempt. */
  function Allow(g: Gate, now: int): (Gate, bool) {
    var g1 := if g.failures >= MAX_FAILURES && now - g.window > LOCKOUT then g.(failures := 0) else g;
    if g1.failures >= MAX_FAILURES then (g1, false)
    else if g1.failures == 0 then (g1.(window := now), true)
    else (g1, true)
  }

  function Claim(g: Gate, code: string, owner: string, now: int, mint: Option<string>): (Gate, ClaimResult) {
    if g.disabled || g.claimed then (g, AlreadyClaimed)
    else
      var (g1, ok) := Allow(g, now);
      if !ok then (g1, RateLimited)
      else if code == "" || code != g1.code then (g1.(failures := g1.failures + 1), BadCode)
      else if mint.None? then (g1, MintFailed)
      else (g1.(token := mint.value, claimed := true, owner := owner, code := ""), Token(mint.value))
  }

  function Release(g: Gate, bearer: string, owner: string, mint: Option<string>): (Gate, ReleaseResult) {
    if g.disabled || g.preauth || !g.claimed || g.token != bearer then (g, Forbidden)
    else if mint.None? then (g, NoCode)
    else (g.(token := "", claimed := false, resumed := false, owner := owner, code := mint.value, failures := 0),
          Code(mint.value))
  }

  // ----- what each operation decides, in the caller's terms -----

  /** A token is handed out exactly when the worker is free, the code is the current one, and
      fewer than ten wrong codes were tried or more than a minute has passed since the first
      of them. */
  lemma ClaimIff(g: Gate, code: string, owner: string, now: int, mint: Option<string>)
    ensures var (g', r) := Claim(g, code, owner, now, mint);
            && (r.Token? <==> !g.disabled && !g.claimed && code != "" && code == g.code && mint.Some?
                              && (g.failures < 10 || now - g.window > 60_000))
            && (r.Token? ==> r.token == mint.value && g'.token == mint.value && g'.owner == owner && g'.claimed && g'.code == "")
            && (!r.Token? ==> g'.token == g.token && g'.code == g.code && g'.claimed == g.claimed && g'.owner == g.owner)
  {
  }

  /** Every other answer, and what it costs: only a wrong code is counted. */
  lemma ClaimRefusals(g: Gate, code: string, owner: string, now: int, mint: Option<string>)
    ensures var (g', r) := Claim(g, code, owner, now, mint);
            var open := g.failures < 10 || now - g.window > 60_000;
            && (r.AlreadyClaimed? <==> g.disabled || g.claimed)
            && (r.RateLimited? <==> !g.disabled && !g.claimed && !open)
            && (r.BadCode? <==> !g.disabled && !g.claimed && open && (code == "" || code != g.code))
            && (r.BadCode? ==> g'.failures == (if g.failures >= 10 then 0 else g.failures) + 1)
            && (r.BadCode? ==> g'.window == if g.failures == 0 || g.failures >= 10 then now else g.window)
            && (r.AlreadyClaimed? || r.RateLimited? ==> g' == g)
  {
  }

  /** A release succeeds exactly for the owner's token, on a worker that is not
      pre-authorized; it frees the worker under a new code with a fresh budget. */
  lemma ReleaseIff(g: Gate, bearer: string, owner: string, mint: Option<string>)
    ensures var (g', r) := Release(g, bearer, owner, mint);
            && (r.Code? <==> !g.disabled && !g.preauth && g.claimed && bearer == g.token && mint.Some?)
            && (r.Code? ==> r.code == mint.value && g'.code == mint.value && g'.token == "" && !g'.claimed && g'.failures == 0)
            && (!r.Code? ==> g' == g)
  {
  }

  /** The order of precedence at boot, by what the started gate accepts and offers. */
  lemma BootPrecedence(disabled: bool, preauth: string, d: Disk, mint: Option<string>)
    ensures var st := if d.Holds? then d.st else FileState("", "", "");
            var b := Boot(disabled, preauth, d, mint);
            && (b.None? <==> !disabled && preauth == "" && st.token == "" && st.code == "" && mint.None?)
            && (b.Some? ==>
                  var (g, d') := b.value;
                  && (disabled ==> forall bearer :: Authorized(g, bearer))
                  && (!disabled ==>
                        var want := if preauth != "" then preauth else st.token;
                        (forall bearer :: Authorized(g, bearer) <==> bearer != "" && bearer == want)
                        && (g.claimed <==> want != "") && (g.preauth <==> preauth != "")
                        && (g.resumed <==> preauth == "" && st.token != ""))
                  && g.code == (if disabled || preauth != "" || st.token != "" then ""
                                else if st.code != "" then st.code else mint.value)
                  && d' == (if !disabled && preauth == "" && st.token == "" && st.code == ""
                            then Holds(FileState("", "", mint.value)) else d)
                  && g.failures == 0 && (g.resumed ==> g.owner == st.owner))
  {
  }

  /** A disabled gate and a pre-authorized one are never claimed and never released. */
  lemma NeverChangesHands(g: Gate, code: string, bearer: string, owner: string, now: int, mint: Option<string>)
    requires g.disabled || (g.preauth && g.claimed)
    ensures Claim(g, code, owner, now, mint) == (g, AlreadyClaimed)
    ensures Release(g, bearer, owner, mint) == (g, Forbidden)
  {
  }
}

/** The gate and its state file as the program keeps them. */
module Gates {
  import opened Options
  import opened GateSpec

  /** How far a write of the state file gets: the file operations that can fail, in order. */
  datatype Stage = NoDirectory | NoTemp | Torn(left: Disk) | NotClosed | NotRenamed | Renamed

  class FileStore {
    const path: string
    var disk: Disk
    /** Temporary files beside the state file. */
    var temps: seq<Disk>

    constructor (path: string, disk: Disk)
      ensures this.path == path && this.disk == disk
    {
      this.path, this.disk, temps := path, disk, [];
    }

    method Read() returns (st: FileState)
      ensures st == if path == "" then FileState("", "", "") else ReadDisk(disk)
    {
      if path == "" || !disk.Holds? {
        return FileState("", "", "");
      }
      st := disk.st;
    }

    /** Writes a temporary file and renames it over the state file. `stage` is where it
        stops and `died` whether the process stops there too. At every stop the state file
        is whole: the old one until the rename, the new one from then on; and only a death
        leaves a temporary file behind. */
    method Write(st: FileState, stage: Stage, died: bool)
      modifies this
      ensures disk == if path != "" && stage.Renamed? then Holds(st) else old(disk)
      ensures !died || stage.Renamed? ==> temps == old(temps)
    {
      if path == "" || stage.NoDirectory? || stage.NoTemp? {
        return;
      }
      var n := |temps|;
      temps := temps + [Corrupt];
      temps := temps[n := if stage.Torn? then stage.left else Holds(st)];
      if stage.Renamed? {
        disk := temps[n];
        temps := temps[..n];
      } else if !died {
        temps := temps[..n];
      }
    }

    method SaveToken(token: string, owner: string, stage: Stage, died: bool)
      modifies this
      ensures disk == if path != "" && stage.Renamed? then Holds(FileState(token, owner, "")) else old(disk)
    {
      Write(FileState(token, owner, ""), stage, died);
    }

    method SaveCode(code: string, stage: Stage, died: bool)
      modifies this
      ensures disk == if path != "" && stage.Renamed? then Holds(FileState("", "", code)) else old(disk)
    {
      Write(FileState("", "", code), stage, died);
    }
  }

  class EnrollGate {
    const store: FileStore?
    var disabled: bool
    var preauth: bool
    var resumed: bool
    var token: string
    var code: string
    var claimed: bool
    var owner: string
    var failures: nat
    var window: int

    function State(): Gate
      reads this
    {
      Gate(disabled, preauth, resumed, token, code, claimed, owner, failures, window)
    }

    /** `mint` is used only when a code has to be made; the caller reports a failing
        random source instead of constructing a gate. */
    constructor (disabled: bool, preauth: string, store: FileStore?, mint: string, stage: Stage, died: bool)
      modifies store
      ensures this.store == store
      ensures var d := if store == null || store.path == "" then Absent else old(store.disk);
              && Boot(disabled, preauth, d, Some(mint)).value.0 == State()
              && (store != null ==>
                    store.disk == if stage.Renamed? && store.path != "" then Boot(disabled, preauth, d, Some(mint)).value.1
                                  else old(store.disk))
    {
      this.store := store;
      this.disabled, this.preauth, resumed, token, code := disabled, false, false, "", "";
      claimed, owner, failures, window := false, "", 0, 0;
      new;
      if disabled {
        return;
      }
      if preauth != "" {
        this.preauth, token, claimed := true, preauth, true;
        return;
      }
      if store != null {
        var st := store.Read();
        if st.token != "" {
          token, owner, claimed, resumed := st.token, st.owner, true, true;
          return;
        }
        if st.code != "" {
          code := st.code;
          return;
        }
      }
      code := mint;
      if store != null {
        store.SaveCode(mint, stage, died);
      }
    }

    method IsAuthorized(bearer: string) returns (yes: bool)
      ensures yes == Authorized(State(), bearer)
    {
      if disabled {
        return true;
      }
      if token == "" {
        return false;
      }
      yes := token == bearer;
    }

    method AllowAttempt(now: int) returns (ok: bool)
      modifies this`failures, this`window
      ensures (State(), ok) == Allow(old(State()), now)
    {
      if failures >= MAX_FAILURES && now - window > LOCKOUT {
        failures := 0;
      }
      if failures >= MAX_FAILURES {
        return false;
      }
      if failures == 0 {
        window := now;
      }
      return true;
    }

    method ClaimWith(presented: string, ownerId: string, now: int, mint: Option<string>, stage: Stage, died: bool) returns (r: ClaimResult)
      modifies this, store
      ensures (State(), r) == Claim(old(State()), presented, ownerId, now, mint)
      ensures store != null ==> store.disk == if r.Token? && store.path != "" && stage.Renamed?
                                              then Holds(FileState(r.token, ownerId, "")) else old(store.disk)
    {
      if disabled {
        return AlreadyClaimed;
      }
      if claimed {
        return AlreadyClaimed;
      }
      var allowed := AllowAttempt(now);
      if !allowed {
        return RateLimited;
      }
      if presented == "" || presented != code {
        failures := failures + 1;
        return BadCode;
      }
      if mint.None? {
        return MintFailed;
      }
      token := mint.value;
      claimed := true;
      owner := ownerId;
      code := "";
      if store != null {
        store.SaveToken(mint.value, ownerId, stage, died);
      }
      return Token(mint.value);
    }

    method ReleaseWith(bearer: string, ownerId: string, mint: Option<string>, stage: Stage, died: bool) returns (r: ReleaseResult)
      modifies this, store
      ensures (State(), r) == Release(old(State()), bearer, ownerId, mint)
      ensures store != null ==> store.disk == if r.Code? && store.path != "" && stage.Renamed?
                                              then Holds(FileState("", "", r.code)) else old(store.disk)
    {
      if disabled || preauth || !claimed {
        return Forbidden;
      }
      if token != bearer {
        return Forbidden;
      }
      if mint.None? {
        return NoCode;
      }
      token := "";
      claimed := false;
      resumed := false;
      owner := ownerId;
      code := mint.value;
      failures := 0;
      if store != null {
        store.SaveCode(mint.value, stage, died);
      }
      return Code(mint.value);
    }
  }
}

/** Whole runs of claims, releases, crashes and reboots over one state file whose writes
    may fail. */
module GateRuns {
  import opened Options
  import opened GateSpec

  /** History of ownership: a token installed or revoked, with whether the state file took
      the change, and the token a boot found there ("" for none). */
  datatype Owned = Claimed(token: string, saved: bool) | Released(token: string, saved: bool) | Booted(token: string)

  /** History of codes: minted, found in the file by a boot, or spent on a claim. */
  datatype Coded = Issued(code: string) | Restored(code: string) | Spent(code: string, saved: bool)

  /** gate is None while the process is down. synced: the process's last state write, if it
      made any, succeeded. used: every code and token ever minted; wrongs: the times of
      wrong-code attempts since the last boot or release. */
  datatype World = World(gate: Option<Gate>, disk: Disk, synced: bool, clock: int,
                         used: set<string>, owners: seq<Owned>, codes: seq<Coded>, wrongs: seq<int>)

  /** ok tells whether the state write, if there is one, succeeds; saved whether a crash
      inside a claim or a release came after its state write. */
  datatype Step =
    | Boots(mint: Option<string>, ok: bool)
    | Claims(code: string, owner: string, now: int, mint: Option<string>, ok: bool)
    | Releases(bearer: string, owner: string, mint: Option<string>, ok: bool)
    | Crash
    | CrashInClaim(code: string, owner: string, now: int, mint: Option<string>, saved: bool)
    | CrashInRelease(bearer: string, owner: string, mint: Option<string>, saved: bool)

  /** Minted values are new and not empty. */
  predicate Minted(w: World, mint: Option<string>) {
    mint.Some? ==> mint.value != "" && mint.value !in w.used
  }

  predicate Enabled(w: World, s: Step) {
    match s
    case Boots(mint, _) => w.gate.None? && Minted(w, mint)
    case Claims(_, _, now, mint, _) => w.gate.Some? && now >= w.clock && Minted(w, mint)
    case Releases(_, _, mint, _) => w.gate.Some? && Minted(w, mint)
    case Crash => w.gate.Some?
    case CrashInClaim(_, _, now, mint, _) => w.gate.Some? && now >= w.clock && Minted(w, mint)
    case CrashInRelease(_, _, mint, _) => w.gate.Some? && Minted(w, mint)
  }

  function Uses(w: World, mint: Option<string>): set<string> {
    if mint.Some? then w.used + {mint.value} else w.used
  }

  function Save(d: Disk, st: FileState, ok: bool): Disk {
    if ok then Holds(st) else d
  }

  /** A boot that offers a code found it in the file or minted it. */
  function Found(d: Disk, code: string): seq<Coded> {
    if code == "" then [] else if code == ReadDisk(d).code then [Restored(code)] else [Issued(code)]
  }

  function AfterBoot(w: World, mint: Option<string>, ok: bool): World {
    var b := Boot(false, "", w.disk, mint);
    if b.None? then w
    else w.(gate := Some(b.value.0), disk := if ok then b.value.1 else w.disk,
            synced := ok || ReadDisk(w.disk).token != "" || ReadDisk(w.disk).code != "",
            used := Uses(w, mint), owners := w.owners + [Booted(b.value.0.token)], codes := w.codes + Found(w.disk, b.value.0.code),
            wrongs := [])
  }

  function AfterClaim(w: World, code: string, owner: string, now: int, mint: Option<string>, ok: bool): World
    requires w.gate.Some?
  {
    var (g, r) := Claim(w.gate.value, code, owner, now, mint);
    var w1 := w.(gate := Some(g), clock := now, used := Uses(w, mint),
                 wrongs := if r.BadCode? then w.wrongs + [now] else w.wrongs);
    if r.Token?
    then w1.(disk := Save(w.disk, FileState(r.token, owner, ""), ok), synced := ok, owners := w.owners + [Claimed(r.token, ok)],
                 codes := w.codes + [Spent(code, ok)])
    else w1
  }

  function AfterRelease(w: World, bearer: string, owner: string, mint: Option<string>, ok: bool): World
    requires w.gate.Some?
  {
    var (g, r) := Release(w.gate.value, bearer, owner, mint);
    var w1 := w.(gate := Some(g), used := Uses(w, mint));
    if r.Code?
    then w1.(disk := Save(w.disk, FileState("", "", r.code), ok), synced := ok,
             owners := w.owners + [Released(bearer, ok)], codes := w.codes + [Issued(r.code)], wrongs := [])
    else w1
  }

  function Next(w: World, s: Step): World
    requires Enabled(w, s)
  {
    match s
    case Boots(mint, ok) => AfterBoot(w, mint, ok)
    case Claims(code, owner, now, mint, ok) => AfterClaim(w, code, owner, now, mint, ok)
    case Releases(bearer, owner, mint, ok) => AfterRelease(w, bearer, owner, mint, ok)
    case Crash => w.(gate := None)
    case CrashInClaim(code, owner, now, mint, saved) =>
      if saved then AfterClaim(w, code, owner, now, mint, true).(gate := None)
      else w.(gate := None, clock := now, used := Uses(w, mint))
    case CrashInRelease(bearer, owner, mint, saved) =>
      if saved then AfterRelease(w, bearer, owner, mint, true).(gate := None)
      else w.(gate := None, used := Uses(w, mint))
  }

  ghost predicate Path(w: World, ss: seq<Step>, t: World)
    decreases |ss|
  {
    if ss == [] then w == t else Enabled(w, ss[0]) && Path(Next(w, ss[0]), ss[1..], t)
  }

  /** Never claimed: the file is missing, unreadable, or holds a code. */
  ghost predicate Initial(w: World) {
    && w.gate.None? && w.owners == [] && w.codes == [] && w.wrongs == []
    && ReadDisk(w.disk).token == "" && ReadDisk(w.disk).code in w.used + {""}
  }

  // ----- ownership -----

  /** The token accepted after this history, "" for none. */
  function Current(owners: seq<Owned>): string {
    if owners == [] then ""
    else
      var last := owners[|owners| - 1];
      if last.Released? then "" else last.token
  }

  /** The token of the last state write that succeeded, "" when it revoked one. */
  function Durable(owners: seq<Owned>): string {
    if owners == [] then ""
    else
      var last := owners[|owners| - 1];
      if last.Booted? || !last.saved then Durable(owners[..|owners| - 1])
      else if last.Claimed? then last.token
      else ""
  }

  /** A claim finds no owner, a release revokes the owner, a boot restores what was saved. */
  ghost predicate InTurn(owners: seq<Owned>, i: nat)
    requires i < |owners|
  {
    var before, o := owners[..i], owners[i];
    if o.Booted? then o.token == Durable(before)
    else o.token != "" && Current(before) == if o.Claimed? then "" else o.token
  }

  ghost predicate Orderly(owners: seq<Owned>) {
    forall i :: 0 <= i < |owners| ==> InTurn(owners, i)
  }

  /** No claim is given a token seen before. */
  ghost predicate TokensOnce(owners: seq<Owned>) {
    forall i, k :: 0 <= i < k < |owners| && owners[k].Claimed? ==> owners[i].token != owners[k].token
  }

  ghost predicate DiskInv(w: World) {
    var st := ReadDisk(w.disk);
    && st.token == Durable(w.owners) && (st.token == "" || st.code == "")
    && st.token in w.used + {""} && st.code in w.used + {""}
  }

  /** The file holds exactly what the gate holds. */
  ghost predicate Matches(g: Gate, d: Disk) {
    d.Holds? && g.token == d.st.token && g.code == d.st.code
  }

  ghost predicate GateInv(w: World) {
    w.gate.Some? ==>
      var g := w.gate.value;
      && !g.disabled && !g.preauth && g.token == Current(w.owners)
      && (g.claimed <==> g.token != "") && (g.claimed <==> g.code == "")
      && g.token in w.used + {""} && g.code in w.used + {""}
      && (w.synced <==> Matches(g, w.disk))
  }

  ghost predicate OwnInv(w: World) {
    && Orderly(w.owners) && TokensOnce(w.owners)
    && (forall i :: 0 <= i < |w.owners| ==> w.owners[i].token in w.used + {""})
    && DiskInv(w) && GateInv(w)
  }

  lemma OwnedSnoc(owners: seq<Owned>, o: Owned)
    requires Orderly(owners) && TokensOnce(owners)
    requires if o.Booted? then o.token == Durable(owners)
             else o.token != "" && Current(owners) == if o.Claimed? then "" else o.token
    requires o.Claimed? ==> forall i :: 0 <= i < |owners| ==> owners[i].token != o.token
    ensures Orderly(owners + [o]) && TokensOnce(owners + [o])
    ensures Current(owners + [o]) == if o.Released? then "" else o.token
    ensures Durable(owners + [o]) ==
            if o.Booted? || !o.saved then Durable(owners) else if o.Claimed? then o.token else ""
  {
    var more := owners + [o];
    assert more[..|owners|] == owners;
    forall i | 0 <= i < |more| ensures InTurn(more, i) {
      if i < |owners| {
        assert InTurn(owners, i);
        assert more[..i] == owners[..i];
      }
    }
  }

  lemma BootOwns(w: World, mint: Option<string>, ok: bool)
    requires OwnInv(w) && w.gate.None? && Minted(w, mint)
    ensures OwnInv(AfterBoot(w, mint, ok))
  {
    OwnedSnoc(w.owners, Booted(ReadDisk(w.disk).token));
  }

  lemma ClaimOwns(w: World, code: string, owner: string, now: int, mint: Option<string>, ok: bool)
    requires OwnInv(w) && w.gate.Some? && Minted(w, mint)
    ensures OwnInv(AfterClaim(w, code, owner, now, mint, ok))
  {
    if Claim(w.gate.value, code, owner, now, mint).1.Token? {
      OwnedSnoc(w.owners, Claimed(mint.value, ok));
    }
  }

  lemma ReleaseOwns(w: World, bearer: string, owner: string, mint: Option<string>, ok: bool)
    requires OwnInv(w) && w.gate.Some? && Minted(w, mint)
    ensures OwnInv(AfterRelease(w, bearer, owner, mint, ok))
  {
    if Release(w.gate.value, bearer, owner, mint).1.Code? {
      OwnedSnoc(w.owners, Released(bearer, ok));
    }
  }

  lemma OwnStep(w: World, s: Step)
    requires OwnInv(w) && Enabled(w, s)
    ensures OwnInv(Next(w, s)) && w.owners <= Next(w, s).owners
  {
    match s
    case Boots(mint, ok) => BootOwns(w, mint, ok);
    case Claims(code, owner, now, mint, ok) => ClaimOwns(w, code, owner, now, mint, ok);
    case Releases(bearer, owner, mint, ok) => ReleaseOwns(w, bearer, owner, mint, ok);
    case CrashInClaim(code, owner, now, mint, saved) => ClaimOwns(w, code, owner, now, mint, true);
    case CrashInRelease(bearer, owner, mint, saved) => ReleaseOwns(w, bearer, owner, mint, true);
    case Crash =>
  }

  lemma {:induction false} OwnRun(w: World, ss: seq<Step>, t: World)
    requires OwnInv(w) && Path(w, ss, t)
    ensures OwnInv(t) && w.owners <= t.owners
    decreases |ss|
  {
    if ss != [] {
      OwnStep(w, ss[0]);
      OwnRun(Next(w, ss[0]), ss[1..], t);
    }
  }

  /** Exclusive ownership: after any run of claims, releases, crashes at any point and
      reboots, with any of the state writes failing, a running gate accepts a bearer exactly
      when it is the token of the last claim or boot and no release came after; a claim
      finds the worker free, a release revokes the owner, a boot restores the token last
      saved; no token is issued twice; the file holds the token last saved, never beside a
      code; and it holds what the gate holds exactly when the process's last state write, if
      any, succeeded. */
  lemma DurableOwnership(w: World, ss: seq<Step>, t: World)
    requires Initial(w) && Path(w, ss, t)
    ensures t.gate.Some? ==> forall bearer ::
              Authorized(t.gate.value, bearer) <==> bearer != "" && bearer == Current(t.owners)
    ensures Orderly(t.owners) && TokensOnce(t.owners)
    ensures ReadDisk(t.disk).token == Durable(t.owners) && (ReadDisk(t.disk).token == "" || ReadDisk(t.disk).code == "")
    ensures t.gate.Some? ==> (t.synced <==> Matches(t.gate.value, t.disk))
    ensures t.gate.Some? ==> (t.gate.value.token == "" <==> t.gate.value.code != "")
  {
    OwnRun(w, ss, t);
  }

  /** A reboot accepts exactly the token of the last state write that succeeded. */
  lemma RebootRestores(w: World, ss: seq<Step>, t: World, mint: Option<string>, ok: bool)
    requires Initial(w) && Path(w, ss, t) && Enabled(t, Boots(mint, ok))
    ensures var u := Next(t, Boots(mint, ok));
            u.gate.Some? ==> forall bearer ::
              Authorized(u.gate.value, bearer) <==> bearer != "" && bearer == Durable(t.owners)
  {
    OwnRun(w, ss, t);
    BootOwns(t, mint, ok);
  }

  // ----- when every write succeeds -----

  ghost predicate AllSaved(owners: seq<Owned>) {
    forall o :: o in owners ==> o.Booted? || o.saved
  }

  function Changes(owners: seq<Owned>): seq<Owned> {
    if owners == [] then []
    else
      var before, last := Changes(owners[..|owners| - 1]), owners[|owners| - 1];
      if last.Booted? then before else before + [last]
  }

  /** Claims and releases take turns, each release of the token claimed before it. */
  ghost predicate Alternates(changes: seq<Owned>) {
    forall i :: 0 <= i < |changes| ==> InstallOrRevoke(changes, i)
  }

  ghost predicate InstallOrRevoke(changes: seq<Owned>, i: nat)
    requires i < |changes|
  {
    if i % 2 == 0 then changes[i].Claimed? else changes[i] == Released(changes[i - 1].token, true)
  }

  lemma AlternateSnoc(cs: seq<Owned>, o: Owned)
    requires Alternates(cs)
    requires if |cs| % 2 == 0 then o.Claimed? else o == Released(cs[|cs| - 1].token, true)
    ensures Alternates(cs + [o])
  {
    var more := cs + [o];
    forall i | 0 <= i < |more| ensures InstallOrRevoke(more, i) {
      assert i < |cs| ==> InstallOrRevoke(cs, i);
    }
  }

  lemma {:induction false} SavedAlternate(owners: seq<Owned>)
    requires Orderly(owners) && AllSaved(owners)
    ensures Alternates(Changes(owners)) && Current(owners) == Durable(owners)
    ensures var cs := Changes(owners);
            if |cs| % 2 == 1 then cs[|cs| - 1] == Claimed(Durable(owners), true) && Durable(owners) != ""
            else Durable(owners) == ""
  {
    if owners != [] {
      var front, last := owners[..|owners| - 1], owners[|owners| - 1];
      forall i | 0 <= i < |front| ensures InTurn(front, i) {
        assert InTurn(owners, i) && front[..i] == owners[..i];
      }
      SavedAlternate(front);
      assert InTurn(owners, |owners| - 1);
      assert last in owners;
      if !last.Booted? {
        AlternateSnoc(Changes(front), last);
      }
    }
  }

  /** While no state write fails, claims and releases alternate across all reboots, and a
      bearer is accepted exactly when it is the token of the last claim, unreleased. */
  lemma SavedOwnership(w: World, ss: seq<Step>, t: World)
    requires Initial(w) && Path(w, ss, t) && AllSaved(t.owners)
    ensures Alternates(Changes(t.owners))
    ensures t.gate.Some? ==> forall bearer ::
              Authorized(t.gate.value, bearer) <==>
              var cs := Changes(t.owners); cs != [] && cs[|cs| - 1] == Claimed(bearer, true)
  {
    OwnRun(w, ss, t);
    SavedAlternate(t.owners);
    var cs := Changes(t.owners);
    if |cs| % 2 == 0 && cs != [] {
      assert InstallOrRevoke(cs, |cs| - 1);
    }
  }

  // ----- releases -----

  lemma {:induction false} NeverAgain(owners: seq<Owned>, i: nat, j: nat)
    requires Orderly(owners) && TokensOnce(owners) && i < j <= |owners|
    requires owners[i].Released? && owners[i].saved
    ensures Current(owners[..j]) != owners[i].token && Durable(owners[..j]) != owners[i].token
  {
    assert InTurn(owners, i) && InTurn(owners, j - 1);
    assert owners[..j][..j - 1] == owners[..j - 1];
    if j > i + 1 {
      NeverAgain(owners, i, j - 1);
    }
  }

  /** A token whose release was saved is refused in every later state of every run. */
  lemma ReleasedForever(w: World, ss: seq<Step>, t: World, more: seq<Step>, u: World, token: string)
    requires Initial(w) && Path(w, ss, t) && Path(t, more, u)
    requires Released(token, true) in t.owners && u.gate.Some?
    ensures !Authorized(u.gate.value, token)
  {
    OwnRun(w, ss, t);
    OwnRun(t, more, u);
    var i :| 0 <= i < |t.owners| && t.owners[i] == Released(token, true);
    assert u.owners[i] == Released(token, true);
    NeverAgain(u.owners, i, |u.owners|);
    assert u.owners[..|u.owners|] == u.owners;
  }

  /** A release survives the next reboot exactly when its write succeeded: otherwise the
      revoked token is accepted again, if the file held it. */
  lemma ReleaseLastsIff(w: World, ss: seq<Step>, t: World, bearer: string, owner: string, mint: Option<string>, ok: bool,
                        mint2: Option<string>, ok2: bool)
    requires Initial(w) && Path(w, ss, t) && Enabled(t, Releases(bearer, owner, mint, ok))
    requires Release(t.gate.value, bearer, owner, mint).1.Code?
    requires Enabled(Next(Next(t, Releases(bearer, owner, mint, ok)), Crash), Boots(mint2, ok2))
    ensures var u := Next(Next(Next(t, Releases(bearer, owner, mint, ok)), Crash), Boots(mint2, ok2));
            u.gate.Some? ==>
              && (Authorized(u.gate.value, bearer) <==> !ok && ReadDisk(t.disk).token == bearer)
              && (t.synced ==> (Authorized(u.gate.value, bearer) <==> !ok))
  {
    OwnRun(w, ss, t);
    ReleaseOwns(t, bearer, owner, mint, ok);
  }

  // ----- claims -----

  lemma {:induction false} KeptUntil(owners: seq<Owned>, i: nat, j: nat)
    requires Orderly(owners) && i < j <= |owners|
    requires owners[i].Claimed? && owners[i].saved
    requires forall o :: o in owners && o.Released? ==> o.token != owners[i].token
    ensures Current(owners[..j]) == Durable(owners[..j]) == owners[i].token
  {
    assert InTurn(owners, i) && InTurn(owners, j - 1);
    assert owners[..j][..j - 1] == owners[..j - 1];
    assert owners[j - 1] in owners;
    if j > i + 1 {
      KeptUntil(owners, i, j - 1);
    }
  }

  /** A token handed out by a saved claim is accepted after any further run, reboots,
      crashes and failing writes included, that does not release it. */
  lemma AcceptedUntilReleased(w: World, ss: seq<Step>, t: World, more: seq<Step>, u: World, token: string)
    requires Initial(w) && Path(w, ss, t) && Path(t, more, u)
    requires Claimed(token, true) in t.owners && u.gate.Some?
    requires Released(token, true) !in u.owners && Released(token, false) !in u.owners
    ensures Authorized(u.gate.value, token)
  {
    OwnRun(w, ss, t);
    OwnRun(t, more, u);
    var i :| 0 <= i < |t.owners| && t.owners[i] == Claimed(token, true);
    assert u.owners[i] == Claimed(token, true);
    forall o | o in u.owners && o.Released? ensures o.token != token {
      assert o == Released(o.token, true) || o == Released(o.token, false);
    }
    KeptUntil(u.owners, i, |u.owners|);
    assert u.owners[..|u.owners|] == u.owners;
    assert InTurn(u.owners, i);
  }

  /** A claim survives a reboot exactly when its state write succeeded. */
  lemma DurableIffWritten(g: Gate, d: Disk, code: string, owner: string, now: int, token: string, ok: bool, mint: string)
    requires ReadDisk(d).token != token && token != "" && mint != ""
    requires Claim(g, code, owner, now, Some(token)).1 == Token(token)
    ensures var b := Boot(false, "", Save(d, FileState(token, owner, ""), ok), Some(mint));
            b.Some? && (Authorized(b.value.0, token) <==> ok)
  {
  }

  // ----- codes -----

  /** The code last minted or restored, "" when there was none. */
  function Offered(codes: seq<Coded>): string {
    if codes == [] then ""
    else if codes[|codes| - 1].Spent? then Offered(codes[..|codes| - 1])
    else codes[|codes| - 1].code
  }

  /** A claim spends the code on offer. */
  ghost predicate SpendsOffer(codes: seq<Coded>, i: nat)
    requires i < |codes|
  {
    codes[i].Spent? ==> codes[i].code != "" && codes[i].code == Offered(codes[..i])
  }

  ghost predicate SpendsOffers(codes: seq<Coded>) {
    forall i :: 0 <= i < |codes| ==> SpendsOffer(codes, i)
  }

  /** What a saved claim spent is never seen again. */
  ghost predicate SpentOnce(codes: seq<Coded>) {
    forall i, k :: 0 <= i < k < |codes| && codes[i].Spent? && codes[i].saved ==> codes[k].code != codes[i].code
  }

  /** The code is not one a saved claim spent. */
  ghost predicate Unspent(codes: seq<Coded>, code: string) {
    forall i :: 0 <= i < |codes| && codes[i].Spent? && codes[i].saved ==> codes[i].code != code
  }

  ghost predicate CodeInv(w: World) {
    && SpendsOffers(w.codes) && SpentOnce(w.codes)
    && (forall i :: 0 <= i < |w.codes| ==> w.codes[i].code in w.used && w.codes[i].code != "")
    && Unspent(w.codes, ReadDisk(w.disk).code)
    && (w.gate.Some? ==> Unspent(w.codes, w.gate.value.code) && w.gate.value.code in [Offered(w.codes), ""])
  }

  lemma CodeSnoc(codes: seq<Coded>, c: Coded)
    requires SpendsOffers(codes) && SpentOnce(codes) && Unspent(codes, c.code) && c.code != ""
    requires c.Spent? ==> c.code == Offered(codes)
    ensures SpendsOffers(codes + [c]) && SpentOnce(codes + [c])
    ensures Offered(codes + [c]) == if c.Spent? then Offered(codes) else c.code
    ensures forall code :: Unspent(codes, code) && !(c.Spent? && c.saved && c.code == code) ==> Unspent(codes + [c], code)
  {
    var more := codes + [c];
    assert more[..|codes|] == codes;
    forall i | 0 <= i < |more| ensures SpendsOffer(more, i) {
      if i < |codes| {
        assert SpendsOffer(codes, i);
        assert more[..i] == codes[..i];
      }
    }
  }

  /** A code just minted was never spent. */
  lemma FreshUnspent(w: World, code: string)
    requires CodeInv(w) && code !in w.used
    ensures Unspent(w.codes, code)
  {
  }

  lemma BootCodes(w: World, mint: Option<string>, ok: bool)
    requires OwnInv(w) && CodeInv(w) && w.gate.None? && Minted(w, mint)
    ensures CodeInv(AfterBoot(w, mint, ok))
  {
    var b := Boot(false, "", w.disk, mint);
    assert w.codes + [] == w.codes;
    if b.Some? && b.value.0.code != "" {
      var code := b.value.0.code;
      if code != ReadDisk(w.disk).code { FreshUnspent(w, code); }
      CodeSnoc(w.codes, if code == ReadDisk(w.disk).code then Restored(code) else Issued(code));
    }
  }

  lemma ClaimCodes(w: World, code: string, owner: string, now: int, mint: Option<string>, ok: bool)
    requires OwnInv(w) && CodeInv(w) && w.gate.Some? && Minted(w, mint)
    ensures CodeInv(AfterClaim(w, code, owner, now, mint, ok))
  {
    ClaimIff(w.gate.value, code, owner, now, mint);
    if Claim(w.gate.value, code, owner, now, mint).1.Token? {
      CodeSnoc(w.codes, Spent(code, ok));
    }
  }

  lemma ReleaseCodes(w: World, bearer: string, owner: string, mint: Option<string>, ok: bool)
    requires OwnInv(w) && CodeInv(w) && w.gate.Some? && Minted(w, mint)
    ensures CodeInv(AfterRelease(w, bearer, owner, mint, ok))
  {
    if Release(w.gate.value, bearer, owner, mint).1.Code? {
      FreshUnspent(w, mint.value);
      CodeSnoc(w.codes, Issued(mint.value));
    }
  }

  lemma CodeStep(w: World, s: Step)
    requires OwnInv(w) && CodeInv(w) && Enabled(w, s)
    ensures CodeInv(Next(w, s))
  {
    match s
    case Boots(mint, ok) => BootCodes(w, mint, ok);
    case Claims(code, owner, now, mint, ok) => ClaimCodes(w, code, owner, now, mint, ok);
    case Releases(bearer, owner, mint, ok) => ReleaseCodes(w, bearer, owner, mint, ok);
    case CrashInClaim(code, owner, now, mint, saved) => ClaimCodes(w, code, owner, now, mint, true);
    case CrashInRelease(bearer, owner, mint, saved) => ReleaseCodes(w, bearer, owner, mint, true);
    case Crash =>
  }

  lemma {:induction false} CodeRun(w: World, ss: seq<Step>, t: World)
    requires OwnInv(w) && CodeInv(w) && Path(w, ss, t)
    ensures OwnInv(t) && CodeInv(t)
    decreases |ss|
  {
    if ss != [] {
      OwnStep(w, ss[0]);
      CodeStep(w, ss[0]);
      CodeRun(Next(w, ss[0]), ss[1..], t);
    }
  }

  /** One claim a code: over every run, each successful claim presented the code last minted
      or restored, and a code that a saved claim spent is never minted, restored or spent
      again, nor on offer. */
  lemma OneClaimACode(w: World, ss: seq<Step>, t: World)
    requires Initial(w) && Path(w, ss, t)
    ensures forall i :: 0 <= i < |t.codes| && t.codes[i].Spent? ==>
              t.codes[i].code != "" && t.codes[i].code == Offered(t.codes[..i])
    ensures forall i, k :: 0 <= i < k < |t.codes| && t.codes[i].Spent? && t.codes[i].saved ==> t.codes[k].code != t.codes[i].code
    ensures t.gate.Some? ==> forall i :: 0 <= i < |t.codes| && t.codes[i].Spent? && t.codes[i].saved ==>
              t.gate.value.code != t.codes[i].code
  {
    CodeRun(w, ss, t);
    forall i | 0 <= i < |t.codes| && t.codes[i].Spent? ensures t.codes[i].code != "" && t.codes[i].code == Offered(t.codes[..i]) {
      assert SpendsOffer(t.codes, i);
    }
  }

  /** After a claim and a reboot the code spent is on offer again exactly when the claim's
      write failed and the file held the code. */
  lemma CodeAgainIff(w: World, ss: seq<Step>, t: World, code: string, owner: string, now: int, mint: Option<string>, ok: bool,
                     mint2: Option<string>, ok2: bool)
    requires Initial(w) && Path(w, ss, t) && Enabled(t, Claims(code, owner, now, mint, ok))
    requires Claim(t.gate.value, code, owner, now, mint).1.Token?
    requires Enabled(Next(Next(t, Claims(code, owner, now, mint, ok)), Crash), Boots(mint2, ok2))
    ensures var u := Next(Next(Next(t, Claims(code, owner, now, mint, ok)), Crash), Boots(mint2, ok2));
            u.gate.Some? ==> (u.gate.value.code == code <==> !ok && ReadDisk(t.disk).token == "" && ReadDisk(t.disk).code == code)
  {
    OwnRun(w, ss, t);
    ClaimIff(t.gate.value, code, owner, now, mint);
  }

  // ----- the attempt budget -----

  /** Attempts come in tens; each ten starts more than the lockout after the ten before,
      and the window is the start of the current ten. */
  ghost predicate Budget(g: Gate, clock: int, wrongs: seq<int>) {
    && (forall i, k :: 0 <= i <= k < |wrongs| ==> wrongs[i] <= wrongs[k] <= clock)
    && (forall e :: 0 <= e && 10 * (e + 1) < |wrongs| ==> Apart(wrongs, e))
    && g.failures <= MAX_FAILURES
    && (if g.failures == MAX_FAILURES then |wrongs| % 10 == 0 && |wrongs| > 0 else g.failures == |wrongs| % 10)
    && (g.failures > 0 ==> wrongs[(|wrongs| - 1) / 10 * 10] == g.window)
    && (g.failures == 0 && |wrongs| > 0 ==> g.window - wrongs[|wrongs| - 10] > LOCKOUT)
    && (g.failures == 0 && |wrongs| > 0 ==> g.window <= clock)
  }

  ghost predicate Apart(wrongs: seq<int>, e: int)
    requires 0 <= e && 10 * (e + 1) < |wrongs|
  {
    wrongs[10 * (e + 1)] - wrongs[10 * e] > LOCKOUT
  }

  lemma BudgetAllow(g: Gate, clock: int, wrongs: seq<int>, now: int)
    requires Budget(g, clock, wrongs) && now >= clock
    ensures var (g1, ok) := Allow(g, now);
            Budget(g1, now, wrongs) && (ok ==> g1.failures < MAX_FAILURES && (g1.failures == 0 ==> g1.window == now))
  {
  }

  lemma BudgetWrong(g: Gate, now: int, wrongs: seq<int>)
    requires Budget(g, now, wrongs) && g.failures < MAX_FAILURES && (g.failures == 0 ==> g.window == now)
    ensures Budget(g.(failures := g.failures + 1), now, wrongs + [now])
  {
    var more := wrongs + [now];
    assert (|more| - 1) / 10 * 10 <= |wrongs|;
    forall e | 0 <= e && 10 * (e + 1) < |more| ensures Apart(more, e) {
      if 10 * (e + 1) < |wrongs| {
        assert Apart(wrongs, e);
      }
    }
  }

  lemma BudgetClaim(g: Gate, clock: int, wrongs: seq<int>, code: string, owner: string, now: int, mint: Option<string>)
    requires Budget(g, clock, wrongs) && now >= clock
    ensures var (g', r) := Claim(g, code, owner, now, mint);
            Budget(g', now, if r.BadCode? then wrongs + [now] else wrongs)
  {
    BudgetAllow(g, clock, wrongs, now);
    if Claim(g, code, owner, now, mint).1.BadCode? {
      BudgetWrong(Allow(g, now).0, now, wrongs);
    }
  }

  ghost predicate BudgetInv(w: World) {
    w.gate.Some? ==> Budget(w.gate.value, w.clock, w.wrongs)
  }

  lemma BudgetStep(w: World, s: Step)
    requires BudgetInv(w) && Enabled(w, s)
    ensures BudgetInv(Next(w, s))
  {
    match s
    case Claims(code, owner, now, mint, _) => BudgetClaim(w.gate.value, w.clock, w.wrongs, code, owner, now, mint);
    case _ =>
  }

  lemma {:induction false} BudgetRun(w: World, ss: seq<Step>, t: World)
    requires BudgetInv(w) && Path(w, ss, t)
    ensures BudgetInv(t)
    decreases |ss|
  {
    if ss != [] {
      BudgetStep(w, ss[0]);
      BudgetRun(Next(w, ss[0]), ss[1..], t);
    }
  }

  lemma {:induction false} TensApart(wrongs: seq<int>, e: nat, f: nat)
    requires forall i :: 0 <= i && 10 * (i + 1) < |wrongs| ==> Apart(wrongs, i)
    requires e <= f && 10 * f < |wrongs|
    ensures wrongs[10 * f] - wrongs[10 * e] >= (f - e) * LOCKOUT
  {
    if e < f {
      TensApart(wrongs, e, f - 1);
      assert Apart(wrongs, f - 1);
    }
  }

  /** Between releases and reboots, wrong codes compared within any interval of `span`
      milliseconds number at most ten times the whole minutes in it plus two. */
  lemma AttemptBound(w: World, ss: seq<Step>, t: World, p: nat, q: nat, span: nat)
    requires Initial(w) && Path(w, ss, t) && t.gate.Some?
    requires p <= q < |t.wrongs| && t.wrongs[q] - t.wrongs[p] <= span
    ensures q - p + 1 <= MAX_FAILURES * (span / LOCKOUT + 2)
  {
    BudgetRun(w, ss, t);
    var e, f := p / 10, q / 10;
    if e < f {
      TensApart(t.wrongs, e + 1, f);
      assert t.wrongs[p] <= t.wrongs[10 * (e + 1)] && t.wrongs[10 * f] <= t.wrongs[q];
      assert (f - e - 1) * LOCKOUT <= span;
    }
  }
}
