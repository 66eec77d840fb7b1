/** First-boot creation of the master-key file by any number of processes, with
    crashes and failures at every step. Persist is one step: it ends in a rename.
 */
module KeyfileProvisioning {
  import opened Naturals

  type Pid = nat
  type Key = nat
  type Passphrase = nat

  // A placeholder is the zero-byte file that an exclusive create leaves.
  datatype File = Absent | Placeholder | Sealed(key: Key, pass: Passphrase)

  datatype Error =
    | NotFound | LoadFailed | FormatInvalid | PassphraseInvalid | CreateFailed | GenerateFailed | PersistFailed

  datatype LoadResult = Loaded(key: Key) | Missing | Unusable(error: Error)

  // FileSource.Load on a file, with the given passphrase.
  function LoadFile(file: File, pass: Passphrase, readFails: bool): LoadResult {
    if readFails then Unusable(LoadFailed)
    else match file
      case Absent => Missing
      case Placeholder => Unusable(FormatInvalid)
      case Sealed(key, p) => if p == pass then Loaded(key) else Unusable(PassphraseInvalid)
  }

  // ------------------------------------------------------------ one process

  datatype Outcome = Ok | Err(error: Error)

  // Which calls fail, and what a sibling boot does between the load and the claim.
  datatype Trouble = Trouble(
    load: bool, claim: bool, close: bool, generate: bool, persist: bool, remove: bool, reload: bool,
    sibling: File)

  class Keyfile {
    var file: File

    constructor (file: File)
      ensures this.file == file
    {
      this.file := file;
    }

    // ensureKeyfile: never touches a file that it did not create itself.
    method EnsureKeyfile(pass: Passphrase, autoGen: bool, minted: Key, t: Trouble) returns (r: Outcome)
      modifies this
      ensures (file, r) == Ensure(old(file), pass, autoGen, minted, t)
      ensures old(file) != Absent ==> file == old(file)
      ensures r.Ok? ==> file.Sealed? && file.pass == pass
      ensures t.load ==> r == Err(LoadFailed) && file == old(file)
      ensures !t.load && old(file) == Placeholder ==> r == Err(FormatInvalid)
      ensures !t.load && old(file).Sealed? ==> r == if old(file).pass == pass then Ok else Err(PassphraseInvalid)
      ensures old(file) == Absent && !t.load && !autoGen ==> r == Err(NotFound) && file == Absent
      ensures old(file) == Absent && !t.load && autoGen && t.claim ==> r == Err(CreateFailed) && file == t.sibling
      ensures old(file) == Absent && autoGen && !t.load && !t.claim && t.sibling != Absent ==>
        && file == t.sibling
        && r == if t.reload then Err(LoadFailed)
                else if t.sibling == Placeholder then Err(FormatInvalid)
                else if t.sibling.pass == pass then Ok else Err(PassphraseInvalid)
      ensures old(file) == Absent && autoGen && !t.load && !t.claim && t.sibling == Absent ==>
        && r == (if t.close then Err(CreateFailed)
                 else if t.generate then Err(GenerateFailed)
                 else if t.persist then Err(PersistFailed) else Ok)
        && (r.Ok? ==> file == Sealed(minted, pass))
        && (r.Err? ==> file == if (if t.close then t.remove else t.generate || t.remove) then Placeholder else Absent)
    {
      var first := LoadFile(file, pass, t.load);
      if first.Loaded? { return Ok; }
      if first.Unusable? { return Err(first.error); }
      if !autoGen { return Err(NotFound); }
      file := t.sibling;
      if t.claim { return Err(CreateFailed); }
      if file != Absent {
        // Lost the race: the exclusive create found a file.
        var second := LoadFile(file, pass, t.reload);
        return match second case Loaded(_) => Ok case Missing => Err(LoadFailed) case Unusable(e) => Err(e);
      }
      file := Placeholder;
      if t.close {
        if !t.remove { file := Absent; }
        return Err(CreateFailed);
      }
      if t.generate { return Err(GenerateFailed); }
      if t.persist {
        if !t.remove { file := Absent; }
        return Err(PersistFailed);
      }
      file := Sealed(minted, pass);
      return Ok;
    }
  }

  // What a call of ensureKeyfile leaves and returns.
  function Ensure(file: File, pass: Passphrase, autoGen: bool, minted: Key, t: Trouble): (File, Outcome) {
    match LoadFile(file, pass, t.load)
    case Loaded(_) => (file, Ok)
    case Unusable(e) => (file, Err(e))
    case Missing =>
      if !autoGen then (file, Err(NotFound))
      else if t.claim then (t.sibling, Err(CreateFailed))
      else if t.sibling != Absent then
        (t.sibling, match LoadFile(t.sibling, pass, t.reload)
                    case Loaded(_) => Ok
                    case Missing => Err(LoadFailed)
                    case Unusable(e) => Err(e))
      else if t.close then (if t.remove then Placeholder else Absent, Err(CreateFailed))
      else if t.generate then (Placeholder, Err(GenerateFailed))
      else if t.persist then (if t.remove then Placeholder else Absent, Err(PersistFailed))
      else (Sealed(minted, pass), Ok)
  }

  // ----------------------------------------------------------- many processes

  datatype Pc =
    | Loading | Claiming | Reloading
    | Closing | Generating | Persisting(key: Key) | Removing(reason: Error)
    | Ensured | Provisioned(key: Key)
    | Failed(error: Error) | Crashed

  datatype Boot = Boot(pass: Passphrase, autoGen: bool, pc: Pc)

  datatype World = World(file: File, boots: map<Pid, Boot>)

  // Every step of a boot may be taken at any time; `fails` says that its system
  // call fails. A step that does not fit the boot's program counter does nothing.
  datatype Action =
    | Start(pid: Pid, pass: Passphrase, autoGen: bool)
    | Load(pid: Pid, fails: bool)
    | Claim(pid: Pid, fails: bool)
    | Close(pid: Pid, fails: bool)
    | Generate(pid: Pid, key: Key, fails: bool)
    | Persist(pid: Pid, fails: bool)
    | Remove(pid: Pid, fails: bool)
    | Crash(pid: Pid)

  function Goto(w: World, pid: Pid, pc: Pc): World
    requires pid in w.boots
  {
    w.(boots := w.boots[pid := w.boots[pid].(pc := pc)])
  }

  function LoadStep(w: World, pid: Pid, fails: bool): World
    requires pid in w.boots
  {
    var b := w.boots[pid];
    var result := LoadFile(w.file, b.pass, fails);
    match b.pc
    case Loading =>
      Goto(w, pid, match result
                   case Loaded(_) => Ensured
                   case Missing => if b.autoGen then Claiming else Failed(NotFound)
                   case Unusable(e) => Failed(e))
    case Reloading =>
      Goto(w, pid, match result
                   case Loaded(_) => Ensured
                   case Missing => Failed(LoadFailed)
                   case Unusable(e) => Failed(e))
    case Ensured =>
      Goto(w, pid, match result
                   case Loaded(k) => Provisioned(k)
                   case Missing => Failed(LoadFailed)
                   case Unusable(e) => Failed(e))
    case _ => w
  }

  function Apply(w: World, a: Action): World {
    if a.Start? then
      if a.pid in w.boots then w else w.(boots := w.boots[a.pid := Boot(a.pass, a.autoGen, Loading)])
    else if a.pid !in w.boots then w
    else
      var b := w.boots[a.pid];
      match (a, b.pc)
      case (Load(pid, fails), _) => LoadStep(w, pid, fails)
      case (Claim(pid, fails), Claiming) =>
        if fails then Goto(w, pid, Failed(CreateFailed))
        else if w.file == Absent then Goto(w, pid, Closing).(file := Placeholder)
        else Goto(w, pid, Reloading)
      case (Close(pid, fails), Closing) => Goto(w, pid, if fails then Removing(CreateFailed) else Generating)
      case (Generate(pid, key, fails), Generating) =>
        Goto(w, pid, if fails then Failed(GenerateFailed) else Persisting(key))
      case (Persist(pid, fails), Persisting(key)) =>
        if fails then Goto(w, pid, Removing(PersistFailed)) else Goto(w, pid, Ensured).(file := Sealed(key, b.pass))
      case (Remove(pid, fails), Removing(reason)) =>
        Goto(w, pid, Failed(reason)).(file := if fails then w.file else Absent)
      case (Crash(pid), _) => Goto(w, pid, Crashed)
      case _ => w
  }

  function Run(w: World, acts: seq<Action>): World
    decreases |acts|
  {
    if |acts| == 0 then w else Run(Apply(w, acts[0]), acts[1..])
  }

  // The boot has created the placeholder and not yet let go of it.
  predicate Owns(pc: Pc) {
    pc.Closing? || pc.Generating? || pc.Persisting? || pc.Removing?
  }

  ghost predicate BootOk(w: World, b: Boot) {
    && (Owns(b.pc) ==> w.file == Placeholder)
    && (b.pc == Ensured ==> w.file.Sealed? && w.file.pass == b.pass)
    && (b.pc.Provisioned? ==> w.file == Sealed(b.pc.key, b.pass))
  }

  ghost predicate OneOwner(w: World) {
    forall p, q :: p in w.boots && q in w.boots && Owns(w.boots[p].pc) && Owns(w.boots[q].pc) ==> p == q
  }

  ghost predicate Inv(w: World) {
    OneOwner(w) && forall p :: p in w.boots ==> BootOk(w, w.boots[p])
  }

  lemma OwnersMeet(w: World, a: Action, p: Pid, q: Pid)
    requires Inv(w) && p in Apply(w, a).boots && q in Apply(w, a).boots
    requires Owns(Apply(w, a).boots[p].pc) && Owns(Apply(w, a).boots[q].pc)
    ensures p == q
  {
    if p in w.boots { assert BootOk(w, w.boots[p]); }
    if q in w.boots { assert BootOk(w, w.boots[q]); }
  }

  lemma ApplyKeepsOneOwner(w: World, a: Action)
    requires Inv(w)
    ensures OneOwner(Apply(w, a))
  {
    var v := Apply(w, a);
    forall p, q | p in v.boots && q in v.boots && Owns(v.boots[p].pc) && Owns(v.boots[q].pc) ensures p == q {
      OwnersMeet(w, a, p, q);
    }
  }

  lemma ApplyKeepsBoot(w: World, a: Action, p: Pid)
    requires Inv(w) && p in Apply(w, a).boots
    ensures BootOk(Apply(w, a), Apply(w, a).boots[p])
  {
    if p in w.boots { assert BootOk(w, w.boots[p]); }
    if a.pid in w.boots { assert BootOk(w, w.boots[a.pid]); }
  }

  lemma ApplyKeepsSealed(w: World, a: Action)
    requires Inv(w) && w.file.Sealed?
    ensures Apply(w, a).file == w.file
  {
    if a.pid in w.boots { assert BootOk(w, w.boots[a.pid]); }
  }

  lemma ApplyKeepsInv(w: World, a: Action)
    requires Inv(w)
    ensures Inv(Apply(w, a))
    ensures w.file.Sealed? ==> Apply(w, a).file == w.file
  {
    ApplyKeepsOneOwner(w, a);
    forall p | p in Apply(w, a).boots ensures BootOk(Apply(w, a), Apply(w, a).boots[p]) { ApplyKeepsBoot(w, a, p); }
    if w.file.Sealed? { ApplyKeepsSealed(w, a); }
  }

  lemma {:induction false} RunKeepsInv(w: World, acts: seq<Action>)
    requires Inv(w)
    ensures Inv(Run(w, acts))
    ensures w.file.Sealed? ==> Run(w, acts).file == w.file
    decreases |acts|
  {
    if |acts| > 0 {
      ApplyKeepsInv(w, acts[0]);
      RunKeepsInv(Apply(w, acts[0]), acts[1..]);
    }
  }

  /** Whatever file the first boot finds, and however any number of boots
      interleave, crash and fail: once a key is sealed it is never overwritten or
      removed, and all boots that come up hold that key. */
  lemma BootsAgree(file: File, before: seq<Action>, after: seq<Action>, p: Pid, q: Pid)
    ensures var w := Run(World(file, map[]), before);
            var v := Run(w, after);
            && (w.file.Sealed? ==> v.file == w.file)
            && (p in w.boots && w.boots[p].pc.Provisioned? && q in v.boots && v.boots[q].pc.Provisioned? ==>
                  w.boots[p].pc.key == v.boots[q].pc.key && v.file.Sealed? && v.file.key == w.boots[p].pc.key)
            && (p in w.boots && w.boots[p].pc == Ensured && p in v.boots && v.boots[p].pc.Provisioned? ==>
                  w.file.Sealed? && v.boots[p].pc.key == w.file.key)
  {
    RunKeepsInv(World(file, map[]), before);
    RunKeepsInv(Run(World(file, map[]), before), after);
  }

  // ------------------------------------------------------ the stale placeholder

  predicate Abandoned(w: World) {
    w.file == Placeholder && forall p :: p in w.boots ==> !Owns(w.boots[p].pc)
  }

  // No boot is up, and none can be on its way up.
  ghost predicate NoneUp(w: World) {
    forall p :: p in w.boots ==> w.boots[p].pc != Ensured && !w.boots[p].pc.Provisioned?
  }

  /** A placeholder that its creator left behind (crash, failed key generation or
      failed removal) is never cleared: from then on no boot ever succeeds. */
  lemma {:induction false} AbandonedForever(w: World, acts: seq<Action>)
    requires Inv(w) && Abandoned(w)
    ensures Abandoned(Run(w, acts)) && NoneUp(Run(w, acts))
    decreases |acts|
  {
    if |acts| > 0 {
      ApplyKeepsInv(w, acts[0]);
      assert Abandoned(Apply(w, acts[0]));
      AbandonedForever(Apply(w, acts[0]), acts[1..]);
    }
  }

  /** Such placeholders do arise: a boot that finds no file, claims the path and then
      crashes, or cannot generate a key, or fails to persist and to clean up.
   */
  lemma AbandonmentHappens(pid: Pid, pass: Passphrase, key: Key)
    ensures var claimed := [Start(pid, pass, true), Load(pid, false), Claim(pid, false)];
            var made := claimed + [Close(pid, false), Generate(pid, key, false)];
            && Abandoned(Run(World(Absent, map[]), claimed + [Crash(pid)]))
            && Abandoned(Run(World(Absent, map[]), claimed + [Close(pid, false), Generate(pid, key, true)]))
            && Abandoned(Run(World(Absent, map[]), made + [Persist(pid, true), Remove(pid, true)]))
  {
    var w := World(Absent, map[]);
    var claimed := [Start(pid, pass, true), Load(pid, false), Claim(pid, false)];
    RunThree(w, claimed);
    var v := Run(w, claimed);
    assert claimed[3..] == [];
    assert v == World(Placeholder, map[pid := Boot(pass, true, Closing)]);
    RunAppend(w, claimed, [Crash(pid)]);
    assert [Crash(pid)][1..] == [];
    RunAppend(w, claimed, [Close(pid, false), Generate(pid, key, true)]);
    RunTwo(v, Close(pid, false), Generate(pid, key, true));
    var made := [Close(pid, false), Generate(pid, key, false)];
    var gives := [Persist(pid, true), Remove(pid, true)];
    RunAppend(w, claimed, made);
    RunTwo(v, made[0], made[1]);
    RunAppend(w, claimed + made, gives);
    RunTwo(Run(v, made), gives[0], gives[1]);
  }

  lemma RunTwo(w: World, a: Action, b: Action)
    ensures Run(w, [a, b]) == Apply(Apply(w, a), b)
  {
    var v := Apply(w, a);
    assert [a, b][1..] == [b] && [b][1..] == [];
    assert Run(w, [a, b]) == Run(v, [b]) == Run(Apply(v, b), []);
  }

  lemma {:induction false} RunAppend(w: World, a: seq<Action>, b: seq<Action>)
    ensures Run(w, a + b) == Run(Run(w, a), b)
    decreases |a|
  {
    if |a| == 0 {
      assert a + b == b;
    } else {
      assert (a + b)[1..] == a[1..] + b;
      RunAppend(Apply(w, a[0]), a[1..], b);
    }
  }

  // ----------------------------------------------------- when is there a way back

  lemma FreshPid(w: World) returns (pid: Pid)
    ensures pid !in w.boots
  {
    pid := Above(w.boots.Keys);
  }

  // Nothing holds the path: a new boot with the right passphrase comes up.
  lemma FreeComesUp(w: World) returns (acts: seq<Action>)
    requires Inv(w) && w.file != Placeholder
    ensures !NoneUp(Run(w, acts))
  {
    var pid := FreshPid(w);
    var pass := if w.file.Sealed? then w.file.pass else 0;
    acts := SoloBoot(pid, pass, true, 0);
    SoloBootIff(w, pid, pass, true, 0);
  }

  // The owner of the placeholder goes on without a failure, or lets go of it.
  lemma OwnerLetsGo(w: World, pid: Pid) returns (acts: seq<Action>)
    requires Inv(w) && w.file == Placeholder && pid in w.boots && Owns(w.boots[pid].pc)
    ensures Run(w, acts).file != Placeholder
  {
    acts := [Close(pid, false), Generate(pid, 0, false), Persist(pid, false), Remove(pid, false)];
    RunFour(w, acts);
  }

  /** From a world on no boot ever comes up, whatever happens, exactly when the file is an
      abandoned placeholder: in every other one some continuation brings a boot up.
   */
  lemma StuckIff(w: World)
    requires Inv(w)
    ensures (forall acts :: NoneUp(Run(w, acts))) <==> Abandoned(w)
  {
    if Abandoned(w) {
      forall acts ensures NoneUp(Run(w, acts)) { AbandonedForever(w, acts); }
    } else {
      var acts := ComesUp(w);
      assert !NoneUp(Run(w, acts));
    }
  }

  lemma ComesUp(w: World) returns (acts: seq<Action>)
    requires Inv(w) && !Abandoned(w)
    ensures !NoneUp(Run(w, acts))
  {
    if w.file != Placeholder {
      acts := FreeComesUp(w);
    } else {
      var pid :| pid in w.boots && Owns(w.boots[pid].pc);
      var first := OwnerLetsGo(w, pid);
      RunKeepsInv(w, first);
      var second := FreeComesUp(Run(w, first));
      acts := first + second;
      RunAppend(w, first, second);
    }
  }

  // ------------------------------------------------- one process among many

  // What a call of ensureKeyfile does behind its first load, with the failures of `t`:
  // steps that do not fit where the boot stands by then do nothing.
  function EnsureSteps(pid: Pid, minted: Key, t: Trouble, raced: bool): seq<Action> {
    if raced then [Claim(pid, t.claim), Load(pid, t.reload)]
    else [Claim(pid, t.claim)] + MintSteps(pid, minted, t)
  }

  function MintSteps(pid: Pid, minted: Key, t: Trouble): seq<Action> {
    [Close(pid, t.close), Generate(pid, minted, t.generate), Persist(pid, t.persist), Remove(pid, t.remove)]
  }

  function PcOf(r: Outcome): Pc {
    match r case Ok => Ensured case Err(e) => Failed(e)
  }

  // The boot loads, the others move the file to what `t` says, and the boot goes on.
  function EnsureRun(w: World, pid: Pid, minted: Key, t: Trouble): World
    requires pid in w.boots
  {
    var loaded := Apply(w, Load(pid, t.load));
    if loaded.boots[pid].pc != Claiming then loaded
    else Run(loaded.(file := t.sibling), EnsureSteps(pid, minted, t, !t.claim && t.sibling != Absent))
  }

  /** A call of ensureKeyfile is a run of the protocol's steps: whatever the other boots
      are doing, it leaves the same file and the same outcome.
   */
  lemma EnsureIsRun(w: World, pid: Pid, minted: Key, t: Trouble)
    requires pid in w.boots && w.boots[pid].pc == Loading
    ensures var (file, r) := Ensure(w.file, w.boots[pid].pass, w.boots[pid].autoGen, minted, t);
            var v := EnsureRun(w, pid, minted, t);
            && v.file == file && v.boots == w.boots[pid := w.boots[pid].(pc := PcOf(r))]
  {
    var b := w.boots[pid];
    var loaded := Apply(w, Load(pid, t.load));
    if loaded.boots[pid].pc == Claiming {
      var v := loaded.(file := t.sibling);
      assert v.boots == w.boots[pid := b.(pc := Claiming)];
      if !t.claim && t.sibling != Absent { RacedRun(v, pid, minted, t); } else { ClaimRun(v, pid, minted, t); }
    }
  }

  lemma RacedRun(v: World, pid: Pid, minted: Key, t: Trouble)
    requires pid in v.boots && v.boots[pid].pc == Claiming && v.file != Absent && !t.claim
    ensures var b := v.boots[pid];
            var pc := match LoadFile(v.file, b.pass, t.reload)
                      case Loaded(_) => Ensured
                      case Missing => Failed(LoadFailed)
                      case Unusable(e) => Failed(e);
            Run(v, EnsureSteps(pid, minted, t, true)) == v.(boots := v.boots[pid := b.(pc := pc)])
  {
    var s := EnsureSteps(pid, minted, t, true);
    assert s[1..][1..] == [];
    var v1 := Apply(v, s[0]);
    assert Run(v, s) == Run(v1, s[1..]) == Apply(v1, s[1]);
  }

  lemma ClaimRun(v: World, pid: Pid, minted: Key, t: Trouble)
    requires pid in v.boots && v.boots[pid].pc == Claiming && (t.claim || v.file == Absent)
    ensures var b := v.boots[pid];
            var u := Run(v, EnsureSteps(pid, minted, t, false));
            if t.claim then u == v.(boots := v.boots[pid := b.(pc := Failed(CreateFailed))])
            else u == MintRun(v.boots, pid, minted, t)
  {
    var s := EnsureSteps(pid, minted, t, false);
    var v1 := Apply(v, s[0]);
    assert s[1..] == MintSteps(pid, minted, t);
    assert Run(v, s) == Run(v1, s[1..]);
    if t.claim {
      GivenUp(v1, pid, minted, t);
    } else {
      Minting(v1, pid, minted, t);
      assert MintRun(v1.boots, pid, minted, t) == MintRun(v.boots, pid, minted, t);
    }
  }

  lemma RunFour(w: World, s: seq<Action>)
    requires |s| == 4
    ensures Run(w, s) == Apply(Apply(Apply(Apply(w, s[0]), s[1]), s[2]), s[3])
  {
    RunThree(w, s);
    assert s[3..][1..] == [];
  }

  lemma GivenUp(w: World, pid: Pid, minted: Key, t: Trouble)
    requires pid in w.boots && w.boots[pid].pc.Failed?
    ensures Run(w, MintSteps(pid, minted, t)) == w
  {
    RunFour(w, MintSteps(pid, minted, t));
  }

  // The world after the owner of the placeholder is through.
  function MintRun(boots: map<Pid, Boot>, pid: Pid, minted: Key, t: Trouble): World
    requires pid in boots
  {
    var b := boots[pid];
    var gone := if t.remove then Placeholder else Absent;
    if t.close then World(gone, boots[pid := b.(pc := Failed(CreateFailed))])
    else if t.generate then World(Placeholder, boots[pid := b.(pc := Failed(GenerateFailed))])
    else if t.persist then World(gone, boots[pid := b.(pc := Failed(PersistFailed))])
    else World(Sealed(minted, b.pass), boots[pid := b.(pc := Ensured)])
  }

  lemma Minting(w: World, pid: Pid, minted: Key, t: Trouble)
    requires pid in w.boots && w.boots[pid].pc == Closing && w.file == Placeholder
    ensures Run(w, MintSteps(pid, minted, t)) == MintRun(w.boots, pid, minted, t)
  {
    var s := MintSteps(pid, minted, t);
    assert s == [s[0], s[1]] + [s[2], s[3]];
    RunAppend(w, [s[0], s[1]], [s[2], s[3]]);
    var b := w.boots[pid].(pc := AfterGenerate(minted, t));
    MintFront(w, pid, minted, t);
    var mid := World(Placeholder, w.boots[pid := b]);
    MintBack(mid, pid, minted, t);
    assert MintRun(mid.boots, pid, minted, t) == MintRun(w.boots, pid, minted, t);
  }

  lemma MintFront(w: World, pid: Pid, minted: Key, t: Trouble)
    requires pid in w.boots && w.boots[pid].pc == Closing && w.file == Placeholder
    ensures Run(w, [Close(pid, t.close), Generate(pid, minted, t.generate)])
         == World(Placeholder, w.boots[pid := w.boots[pid].(pc := AfterGenerate(minted, t))])
  {
    RunTwo(w, Close(pid, t.close), Generate(pid, minted, t.generate));
    var closed := Apply(w, Close(pid, t.close));
    assert closed == Goto(w, pid, if t.close then Removing(CreateFailed) else Generating);
    assert Apply(closed, Generate(pid, minted, t.generate)) == Goto(w, pid, AfterGenerate(minted, t));
  }

  lemma MintBack(w: World, pid: Pid, minted: Key, t: Trouble)
    requires pid in w.boots && w.boots[pid].pc == AfterGenerate(minted, t) && w.file == Placeholder
    ensures Run(w, [Persist(pid, t.persist), Remove(pid, t.remove)]) == MintRun(w.boots, pid, minted, t)
  {
    RunTwo(w, Persist(pid, t.persist), Remove(pid, t.remove));
  }

  function AfterGenerate(minted: Key, t: Trouble): Pc {
    if t.close then Removing(CreateFailed) else if t.generate then Failed(GenerateFailed) else Persisting(minted)
  }

  // One boot, start to finish, with every system call succeeding.
  function SoloBoot(pid: Pid, pass: Passphrase, autoGen: bool, key: Key): seq<Action> {
    [Start(pid, pass, autoGen), Load(pid, false), Claim(pid, false), Close(pid, false),
     Generate(pid, key, false), Persist(pid, false), Load(pid, false)]
  }

  /** A boot on its own, with nothing failing, comes up exactly when the file is
      sealed under its passphrase, or absent with generation permitted. In
      particular it never comes up over a stale placeholder. */
  lemma SoloBootIff(w: World, pid: Pid, pass: Passphrase, autoGen: bool, key: Key)
    requires Inv(w) && pid !in w.boots
    ensures var v := Run(w, SoloBoot(pid, pass, autoGen, key));
            && pid in v.boots
            && (v.boots[pid].pc.Provisioned? <==>
                  (w.file.Sealed? && w.file.pass == pass) || (w.file == Absent && autoGen))
            && (w.file.Sealed? && w.file.pass == pass ==> v.boots[pid].pc == Provisioned(w.file.key))
            && (w.file == Absent && autoGen ==> v.boots[pid].pc == Provisioned(key) && v.file == Sealed(key, pass))
  {
    var s := SoloBoot(pid, pass, autoGen, key);
    var first, middle, last := [s[0], s[1]], [s[2], s[3], s[4], s[5]], [s[6]];
    assert s == first + middle + last;
    RunAppend(w, first + middle, last);
    RunAppend(w, first, middle);
    SoloStart(w, pid, pass, autoGen);
    SoloMiddle(Run(w, first), pid, key);
    assert last[1..] == [];
  }

  // Where the boot stands after its first load.
  function FirstPc(file: File, pass: Passphrase, autoGen: bool): Pc {
    match LoadFile(file, pass, false)
    case Loaded(_) => Ensured
    case Missing => if autoGen then Claiming else Failed(NotFound)
    case Unusable(e) => Failed(e)
  }

  lemma SoloStart(w: World, pid: Pid, pass: Passphrase, autoGen: bool)
    requires pid !in w.boots
    ensures Run(w, [Start(pid, pass, autoGen), Load(pid, false)])
         == w.(boots := w.boots[pid := Boot(pass, autoGen, FirstPc(w.file, pass, autoGen))])
  {
    RunTwo(w, Start(pid, pass, autoGen), Load(pid, false));
  }

  lemma SoloMiddle(w: World, pid: Pid, key: Key)
    requires pid in w.boots
    requires w.boots[pid].pc == Ensured || w.boots[pid].pc.Failed? || (w.boots[pid].pc == Claiming && w.file == Absent)
    ensures var steps := [Claim(pid, false), Close(pid, false), Generate(pid, key, false), Persist(pid, false)];
            var minted := World(Sealed(key, w.boots[pid].pass), w.boots[pid := w.boots[pid].(pc := Ensured)]);
            Run(w, steps) == if w.boots[pid].pc == Claiming then minted else w
  {
    RunFour(w, [Claim(pid, false), Close(pid, false), Generate(pid, key, false), Persist(pid, false)]);
  }

  lemma RunThree(w: World, s: seq<Action>)
    requires |s| >= 3
    ensures Run(w, s) == Run(Apply(Apply(Apply(w, s[0]), s[1]), s[2]), s[3..])
  {
    var w1 := Apply(w, s[0]);
    assert s[1..][1..] == s[2..] && s[2..][1..] == s[3..];
    assert Run(w, s) == Run(w1, s[1..]);
    assert Run(w1, s[1..]) == Run(Apply(w1, s[1]), s[2..]);
  }
}
