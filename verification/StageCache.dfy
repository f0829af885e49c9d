/** The resumable five-stage job (`src/utteran/jobs.py`, `src/utteran/pipeline.py`). A stage
    hash is a term that holds what it digests; stage outputs are numbers; writes to disk are
    atomic, as the manifest and artifact writers make them. */
module StageCache {
  import opened Basics

  datatype Stage = Audio | Asr | Diarization | Merge | Export

  const STAGES: seq<Stage> := [Audio, Asr, Diarization, Merge, Export]

  function Dependents(stage: Stage): set<Stage> {
    match stage
    case Audio => {Asr, Diarization, Merge, Export}
    case Asr => {Merge, Export}
    case Diarization => {Merge, Export}
    case Merge => {Export}
    case Export => {}
  }

  // ---------------------------------------------------------------- configuration and hashes

  datatype Timestamps = Auto | Always | Never

  datatype AsrSettings = AsrSettings(whisperCpp: bool, timestamps: Timestamps, other: nat)
  datatype DiarizationSettings = DiarizationSettings(enabled: bool, other: nat)
  datatype OutputSettings = OutputSettings(formats: nat, other: nat)

  datatype Config = Config(asr: AsrSettings, diarization: DiarizationSettings, alignment: nat, output: OutputSettings)

  datatype Hash =
    | AudioHash(input: nat)
    | AsrHash(audio: Hash, asr: AsrSettings)
    | DiarizationHash(audio: Hash, diarization: DiarizationSettings)
    | MergeHash(transcript: Hash, turns: Hash, alignment: nat)
    | ExportHash(merged: Hash, output: OutputSettings)

  function StageHash(input: nat, c: Config, stage: Stage): Hash {
    match stage
    case Audio => AudioHash(input)
    case Asr => AsrHash(AudioHash(input), c.asr)
    case Diarization => DiarizationHash(AudioHash(input), c.diarization)
    case Merge => MergeHashOf(input, c)
    case Export => ExportHash(MergeHashOf(input, c), c.output)
  }

  function MergeHashOf(input: nat, c: Config): Hash {
    MergeHash(AsrHash(AudioHash(input), c.asr), DiarizationHash(AudioHash(input), c.diarization), c.alignment)
  }

  /** The stages whose hash goes into the hash of `stage`. */
  function HashInputs(stage: Stage): set<Stage> {
    match stage
    case Audio => {}
    case Asr => {Audio}
    case Diarization => {Audio}
    case Merge => {Asr, Diarization}
    case Export => {Merge}
  }

  function Rank(stage: Stage): nat {
    match stage case Audio => 0 case Asr => 1 case Diarization => 2 case Merge => 3 case Export => 4
  }

  ghost predicate Ancestor(a: Stage, stage: Stage)
    decreases Rank(stage)
  {
    exists m: Stage {:trigger m in HashInputs(stage)} :: m in HashInputs(stage) && Rank(m) < Rank(stage) && (m == a || Ancestor(a, m))
  }

  /** The table of dependents is the transitive closure of "goes into the hash of", which is why
      one pass over the stale stages is enough. */
  lemma {:induction false} DependentsAreDescendants(a: Stage, stage: Stage)
    ensures stage in Dependents(a) <==> Ancestor(a, stage)
    decreases Rank(stage)
  {
    match stage
    case Audio =>
    case Asr => DependentsAreDescendants(a, Audio); assert Audio in HashInputs(Asr);
    case Diarization => DependentsAreDescendants(a, Audio); assert Audio in HashInputs(Diarization);
    case Merge =>
      DependentsAreDescendants(a, Asr);
      DependentsAreDescendants(a, Diarization);
      assert Asr in HashInputs(Merge) && Diarization in HashInputs(Merge);
    case Export => DependentsAreDescendants(a, Merge); assert Merge in HashInputs(Export);
  }

  // ---------------------------------------------------------------- what a stage computes

  /** The deterministic stage functions: ffmpeg, the ASR and diarization backends, the merge. */
  datatype Engine = Engine(
    normalize: nat -> nat,
    transcribe: (nat, AsrSettings, bool) -> nat,
    diarize: (nat, DiarizationSettings) -> nat,
    combine: (nat, Option<nat>, nat) -> nat)

  /** Whether word timestamps are requested from the ASR backend. */
  function WordTimestamps(asr: AsrSettings, diarizationEnabled: bool): bool {
    if asr.whisperCpp then asr.timestamps.Always? || (asr.timestamps.Auto? && diarizationEnabled) else true
  }

  function Transcript(e: Engine, audio: nat, c: Config): nat {
    e.transcribe(audio, c.asr, WordTimestamps(c.asr, c.diarization.enabled))
  }

  function Turns(e: Engine, audio: nat, c: Config): Option<nat> {
    if c.diarization.enabled then Some(e.diarize(audio, c.diarization)) else None
  }

  /** The four artifacts of a run that starts with an empty job directory. */
  function FromScratch(e: Engine, input: nat, c: Config, stage: Stage): Option<nat> {
    var audio := e.normalize(input);
    match stage
    case Audio => Some(audio)
    case Asr => Some(Transcript(e, audio, c))
    case Diarization => Turns(e, audio, c)
    case Merge => Some(e.combine(Transcript(e, audio, c), Turns(e, audio, c), c.alignment))
    case Export => None
  }

  /** ASR settings under which the transcript depends on a setting outside their hash. */
  predicate Sensitive(asr: AsrSettings) {
    asr.whisperCpp && asr.timestamps.Auto?
  }

  /** How an artifact came about: whether diarization was on in the run that made its transcript,
      and whether it was merged without turns because they were lost. */
  datatype Origin = Origin(enabled: bool, bare: bool)

  /** The origins of the transcript and of the merged result at hand. */
  datatype Provenance = Provenance(transcript: bool, merged: Origin)

  function OriginOf(p: Provenance, stage: Stage): Origin {
    match stage
    case Asr => Origin(p.transcript, false)
    case Merge => p.merged
    case _ => Origin(false, false)
  }

  /** The provenance after a run that executed these stages. */
  function After(p: Provenance, executed: seq<Stage>, enabled: bool, missed: bool): Provenance {
    var t := if Asr in executed then enabled else p.transcript;
    Provenance(t, if Merge in executed then Origin(t, missed) else p.merged)
  }

  /** The artifact that a stage hash stands for, given its origin. */
  ghost function Made(e: Engine, o: Origin, h: Hash): Option<nat> {
    match h
    case AudioHash(input) => Some(e.normalize(input))
    case AsrHash(audio, asr) => Some(e.transcribe(Value(Made(e, o, audio)), asr, WordTimestamps(asr, o.enabled)))
    case DiarizationHash(audio, d) => if d.enabled then Some(e.diarize(Value(Made(e, o, audio)), d)) else None
    case MergeHash(t, d, alignment) =>
      Some(e.combine(Value(Made(e, o, t)), if o.bare then None else Made(e, o, d), alignment))
    case ExportHash(_, _) => None
  }

  function Value(o: Option<nat>): nat {
    if o.Some? then o.value else 0
  }

  /** What the artifacts of a configuration are, spelled out. */
  lemma MadeIs(e: Engine, o: Origin, input: nat, c: Config)
    ensures var audio := e.normalize(input); var t := e.transcribe(audio, c.asr, WordTimestamps(c.asr, o.enabled));
            && Made(e, o, StageHash(input, c, Audio)) == FromScratch(e, input, c, Audio) == Some(audio)
            && Made(e, o, StageHash(input, c, Asr)) == Some(t)
            && Made(e, o, StageHash(input, c, Diarization)) == FromScratch(e, input, c, Diarization)
            && Made(e, o, StageHash(input, c, Merge))
               == Some(e.combine(t, if o.bare then None else Turns(e, audio, c), c.alignment))
  {
    var audio := AudioHash(input);
    assert Made(e, o, audio) == Some(e.normalize(input));
    assert Made(e, o, AsrHash(audio, c.asr)).Some?;
    assert StageHash(input, c, Merge) == MergeHash(AsrHash(audio, c.asr), DiarizationHash(audio, c.diarization), c.alignment);
  }

  /** The transcript does not hide a switch of diarization, and turns that were on are merged. */
  predicate Right(c: Config, o: Origin, stage: Stage) {
    && (stage.Asr? || stage.Merge? ==> Sensitive(c.asr) ==> o.enabled == c.diarization.enabled)
    && (stage.Merge? && o.bare ==> !c.diarization.enabled)
  }

  /** An artifact is the from-scratch one on every engine exactly when its origin is right. */
  lemma RightIff(input: nat, c: Config, o: Origin, stage: Stage)
    requires !stage.Export?
    ensures (forall e: Engine :: Made(e, o, StageHash(input, c, stage)) == FromScratch(e, input, c, stage)) <==> Right(c, o, stage)
  {
    forall e: Engine | Right(c, o, stage) ensures Made(e, o, StageHash(input, c, stage)) == FromScratch(e, input, c, stage) {
      MadeIs(e, o, input, c);
    }
    var e := TellTale();
    MadeIs(e, o, input, c);
    assert !Right(c, o, stage) ==> Made(e, o, StageHash(input, c, stage)) != FromScratch(e, input, c, stage);
  }

  /** Two configurations with the same ASR hash have the same transcript whatever the engine,
      except in one family: automatic word timestamps with whisper.cpp, where the transcript
      depends on whether diarization is on and the hash does not. */
  lemma AsrHashDecidesTranscript(input: nat, c: Config, d: Config)
    requires StageHash(input, c, Asr) == StageHash(input, d, Asr)
    ensures (forall e: Engine :: FromScratch(e, input, c, Asr) == FromScratch(e, input, d, Asr))
       <==> (Sensitive(c.asr) ==> c.diarization.enabled == d.diarization.enabled)
  {
    if Sensitive(c.asr) && c.diarization.enabled != d.diarization.enabled {
      var e := TellTale();
      assert FromScratch(e, input, c, Asr) != FromScratch(e, input, d, Asr);
    }
  }

  /** An engine whose result shows whether word timestamps were requested and turns were merged. */
  function TellTale(): Engine {
    Engine(_ => 0, (_, _, words) => if words then 1 else 0, (_, _) => 0,
           (t, turns: Option<nat>, _) => if turns.Some? then t + 2 else t)
  }

  // ---------------------------------------------------------------- the job

  datatype Record = Pending | Running(hash: Hash) | Done(hash: Hash, artifacts: bool) | Failed(hash: Hash)

  /** Reading a manifest back: interrupted work is pending. */
  function Restored(r: Record): Record {
    if r.Running? then Pending else r
  }

  type Manifest = map<Stage, Record>
  type Files = map<Stage, Option<nat>>

  ghost predicate Total(m: Manifest) {
    forall s: Stage :: s in m
  }

  /** The artifact is readable; exports also have to be recorded, at least one. */
  predicate ArtifactsValid(files: Files, stage: Stage, r: Record) {
    stage in files && (stage.Export? ==> r.Done? && r.artifacts)
  }

  predicate Reusable(m: Manifest, files: Files, stage: Stage, h: Hash) {
    stage in m && m[stage].Done? && m[stage].hash == h && ArtifactsValid(files, stage, m[stage])
  }

  ghost predicate StaleAtRoot(m: Manifest, files: Files, input: nat, c: Config, stage: Stage) {
    !Reusable(m, files, stage, StageHash(input, c, stage))
  }

  /** Stale itself, or below a stale stage. */
  ghost predicate Stale(m: Manifest, files: Files, input: nat, c: Config, force: bool, stage: Stage) {
    force || StaleAtRoot(m, files, input, c, stage) || exists a :: Ancestor(a, stage) && StaleAtRoot(m, files, input, c, a)
  }

  /** Every finished stage whose artifact is there has the artifact its hash and origin stand for. */
  ghost predicate Sound(e: Engine, p: Provenance, m: Manifest, files: Files) {
    forall s {:trigger files[s]} | s in m && s in files && m[s].Done? && !s.Export? ::
      files[s] == Made(e, OriginOf(p, s), m[s].hash)
  }

  /** How the execution of a stage ends, and whether its artifact had been written by then. */
  datatype Fate =
    | CrashesBefore | CancelledBefore
    | Finishes
    | Fails(artifact: bool) | Interrupted(artifact: bool) | Crashes(artifact: bool)

  /** What the environment does to one stage: artifacts lost before the stage is checked and
      before its artifact is loaded or its inputs are read, and the fate of its execution. */
  datatype Weather = Weather(beforeCheck: set<Stage>, beforeUse: set<Stage>, fate: Fate)

  datatype Outcome = Returned(result: nat) | Stopped

  lemma ClosureIsStale(m: Manifest, files: Files, input: nat, c: Config, force: bool, roots: set<Stage>, invalid: set<Stage>)
    requires forall s: Stage :: s in roots <==> force || StaleAtRoot(m, files, input, c, s)
    requires forall s: Stage :: s in invalid <==> s in roots || exists a :: a in roots && s in Dependents(a)
    ensures forall s: Stage :: s in invalid <==> Stale(m, files, input, c, force, s)
  {
    forall s: Stage ensures s in invalid <==> Stale(m, files, input, c, force, s) {
      forall a: Stage ensures s in Dependents(a) <==> Ancestor(a, s) { DependentsAreDescendants(a, s); }
    }
  }

  ghost predicate IsDone(m: Manifest, stage: Stage, h: Hash) {
    stage in m && m[stage].Done? && m[stage].hash == h
  }

  predicate Lossless(w: Weather) {
    w.beforeCheck == {} && w.beforeUse == {}
  }

  /** What is lost before the stage decides whether to execute. */
  function Decisive(stage: Stage, w: Weather): set<Stage> {
    w.beforeCheck + if stage.Asr? || stage.Merge? then w.beforeUse else {}
  }

  /** All that is lost during the stage; a reused audio or export stage uses nothing. */
  function Losses(stage: Stage, w: Weather, executes: bool): set<Stage> {
    w.beforeCheck + if executes || !(stage.Audio? || stage.Export?) then w.beforeUse else {}
  }

  /** A step of `stage` leaves the other records alone, and other artifacts exactly if not lost. */
  ghost predicate Framed(m0: Manifest, f0: Files, m: Manifest, f: Files, stage: Stage, lost: set<Stage>) {
    && (forall s | s in m0 && s != stage :: s in m && m[s] == m0[s])
    && (forall s: Stage | s != stage :: s in f <==> s in f0 && s !in lost)
    && (forall s | s in f && s != stage :: f[s] == f0[s])
  }

  /** A step reuses its stage exactly when it is reusable after the decisive losses. A finished
      step leaves its stage done, and a stopped execution leaves it not done. */
  ghost predicate Stepped(m0: Manifest, f0: Files, m: Manifest, f: Files, stage: Stage, h: Hash,
                          ok: bool, executed: seq<Stage>, w: Weather) {
    var kept := Reusable(m0, f0 - Decisive(stage, w), stage, h);
    && Framed(m0, f0, m, f, stage, Losses(stage, w, !kept))
    && (ok ==> IsDone(m, stage, h) && (stage in f <==> !kept || stage !in Losses(stage, w, !kept)))
    && (if kept then ok && executed == [] else executed == if w.fate.CrashesBefore? || w.fate.CancelledBefore? then [] else [stage])
    && (!kept && ok ==> executed == [stage])
    && RecordsKept(m0, m, executed, stage, h)
  }

  /** Whether an execution records artifacts: an export lists a file for each of its formats. */
  function Listed(h: Hash): bool {
    h.ExportHash? ==> h.output.formats > 0
  }

  /** A record that is done was made by this execution or is the old one. */
  ghost predicate RecordsKept(m0: Manifest, m: Manifest, executed: seq<Stage>, stage: Stage, h: Hash) {
    stage in m && m[stage].Done? ==> if stage in executed then m[stage] == Done(h, Listed(h)) else stage in m0 && m[stage] == m0[stage]
  }

  /** Only diarization ever writes a null result. */
  ghost predicate Typed(files: Files) {
    (Asr in files ==> files[Asr].Some?) && (Merge in files ==> files[Merge].Some?)
  }

  ghost predicate AllLossless(weather: Stage -> Weather) {
    forall s: Stage {:trigger weather(s)} :: Lossless(weather(s))
  }

  ghost predicate AllFinish(weather: Stage -> Weather) {
    forall s: Stage {:trigger weather(s)} :: weather(s).fate.Finishes?
  }

  /** The audio is never lost during the run. */
  ghost predicate KeepsAudio(weather: Stage -> Weather) {
    forall s: Stage {:trigger weather(s)} :: Audio !in weather(s).beforeCheck + weather(s).beforeUse
  }

  /** The stages that cannot be reused when the run comes to stage `k`. */
  ghost function BadAt(stale: set<Stage>, weather: Stage -> Weather, k: nat): set<Stage>
    requires k <= 5
  {
    if k == 0 then stale
    else
      var bad, s := BadAt(stale, weather, k - 1), STAGES[k - 1];
      bad + Losses(s, weather(s), s in bad + Decisive(s, weather(s)))
  }

  /** The stages to execute: stale at the start, or lost before they decide. */
  ghost function Due(stale: set<Stage>, weather: Stage -> Weather): set<Stage> {
    set s: Stage | s in BadAt(stale, weather, Rank(s)) + Decisive(s, weather(s))
  }

  /** Without losses these are the stale stages. */
  lemma LosslessDue(stale: set<Stage>, weather: Stage -> Weather)
    requires AllLossless(weather)
    ensures Due(stale, weather) == stale
  {
    forall k: nat | k <= 5 ensures BadAt(stale, weather, k) == stale { LosslessBad(stale, weather, k); }
  }

  lemma {:induction false} LosslessBad(stale: set<Stage>, weather: Stage -> Weather, k: nat)
    requires AllLossless(weather) && k <= 5
    ensures BadAt(stale, weather, k) == stale
  {
    if k > 0 { LosslessBad(stale, weather, k - 1); }
  }

  /** The turns are found reusable and then gone. */
  ghost predicate Misses(stale: set<Stage>, weather: Stage -> Weather) {
    Diarization !in Due(stale, weather) && Diarization in weather(Diarization).beforeUse
  }

  ghost function StaleStages(m: Manifest, files: Files, input: nat, c: Config, force: bool): set<Stage> {
    set s: Stage | Stale(m, files, input, c, force, s)
  }

  /** `executed` lists, in order and once each, the stages of `stale` before stage `k`. */
  ghost predicate StaleUpTo(executed: seq<Stage>, stale: set<Stage>, k: nat) {
    && (forall i, j | 0 <= i < j < |executed| :: Rank(executed[i]) < Rank(executed[j]))
    && (forall s: Stage {:trigger s in executed} {:trigger s in stale} :: s in executed <==> s in stale && Rank(s) < k)
  }

  lemma OneMoreStage(executed: seq<Stage>, stale: set<Stage>, stage: Stage)
    requires StaleUpTo(executed, stale, Rank(stage))
    ensures stage in stale ==> StaleUpTo(executed + [stage], stale, Rank(stage) + 1)
    ensures stage !in stale ==> StaleUpTo(executed, stale, Rank(stage) + 1)
  {
    assert forall s: Stage :: Rank(s) == Rank(stage) ==> s == stage;
    assert forall i | 0 <= i < |executed| :: executed[i] in executed;
  }

  /** Every record that is done was made by this run or is the old one. */
  ghost predicate RecordsFrom(m0: Manifest, m: Manifest, executed: seq<Stage>, input: nat, c: Config) {
    forall s: Stage {:trigger s in executed} :: RecordsKept(m0, m, executed, s, StageHash(input, c, s))
  }

  /** From stage `k` on, exactly the stages of `bad` cannot be reused. */
  ghost predicate OnPlan(m: Manifest, f: Files, bad: set<Stage>, input: nat, c: Config, k: nat) {
    forall s: Stage {:trigger s in bad} | k <= Rank(s) :: Reusable(m, f, s, StageHash(input, c, s)) <==> s !in bad
  }

  lemma ReconciledOnPlan(m1: Manifest, m: Manifest, m0: Manifest, f: Files, input: nat, c: Config, force: bool)
    requires Total(m0) && Total(m1) && Total(m)
    requires forall s :: m1[s] == Restored(m0[s])
    requires forall s :: m[s] == if Stale(m1, f, input, c, force, s) then Pending else m1[s]
    ensures OnPlan(m, f, StaleStages(m0, f, input, c, force), input, c, 0)
    ensures RecordsFrom(m0, m, [], input, c)
  {
    forall s: Stage
      ensures StaleAtRoot(m1, f, input, c, s) <==> StaleAtRoot(m0, f, input, c, s)
      ensures RecordsKept(m0, m, [], s, StageHash(input, c, s))
    {
      assert m1[s] == Restored(m0[s]) && (m[s] == Pending || m[s] == m1[s]);
    }
  }

  /** The stages before `k` are done. */
  ghost predicate DoneBefore(m: Manifest, input: nat, c: Config, k: nat) {
    forall s: Stage {:trigger Rank(s)} | Rank(s) < k :: IsDone(m, s, StageHash(input, c, s))
  }

  /** The run is at stage `k` and has executed exactly the due stages before it. */
  ghost predicate Following(m: Manifest, f: Files, stale: set<Stage>, weather: Stage -> Weather,
                            input: nat, c: Config, k: nat, executed: seq<Stage>)
    requires k <= 5
  {
    && Total(m) && OnPlan(m, f, BadAt(stale, weather, k), input, c, k)
    && DoneBefore(m, input, c, k) && StaleUpTo(executed, Due(stale, weather), k)
    && (AllLossless(weather) ==> PresentBefore(f, k))
  }

  /** The artifacts of the stages before `k` are there. */
  ghost predicate PresentBefore(f: Files, k: nat) {
    forall s: Stage {:trigger Rank(s)} | Rank(s) < k :: s in f
  }

  lemma StepFollows(m0: Manifest, m: Manifest, f: Files, n: Manifest, h: Files, stale: set<Stage>, weather: Stage -> Weather,
                    input: nat, c: Config, stage: Stage, executed: seq<Stage>, ok: bool, more: seq<Stage>)
    requires Total(n) && Following(m, f, stale, weather, input, c, Rank(stage), executed)
    requires RecordsFrom(m0, m, executed, input, c)
    requires Stepped(m, f, n, h, stage, StageHash(input, c, stage), ok, more, weather(stage))
    ensures stage in Due(stale, weather) <==> !Reusable(m, f - Decisive(stage, weather(stage)), stage, StageHash(input, c, stage))
    ensures ok ==> Following(n, h, stale, weather, input, c, Rank(stage) + 1, executed + more)
    ensures exists k: nat :: StaleUpTo(executed + more, Due(stale, weather), k)
    ensures RecordsFrom(m0, n, executed + more, input, c) && DoneBefore(n, input, c, Rank(stage))
  {
    var due, hash := Due(stale, weather), StageHash(input, c, stage);
    OneMoreStage(executed, due, stage);
    assert Reusable(m, f, stage, hash) <==> stage !in BadAt(stale, weather, Rank(stage));
    assert executed + [] == executed;
    RecordsStep(m0, m, n, executed, more, stage, input, c);
    StepDone(m, f, n, h, input, c, stage, ok, more, weather);
    if ok { StepOnPlan(m, f, n, h, stale, weather, input, c, stage); }
    assert StaleUpTo(executed + more, due, Rank(stage)) || StaleUpTo(executed + more, due, Rank(stage) + 1);
  }

  lemma StepDone(m: Manifest, f: Files, n: Manifest, h: Files, input: nat, c: Config, stage: Stage,
                 ok: bool, more: seq<Stage>, weather: Stage -> Weather)
    requires Total(n) && DoneBefore(m, input, c, Rank(stage)) && (AllLossless(weather) ==> PresentBefore(f, Rank(stage)))
    requires Stepped(m, f, n, h, stage, StageHash(input, c, stage), ok, more, weather(stage))
    ensures DoneBefore(n, input, c, Rank(stage))
    ensures ok ==> DoneBefore(n, input, c, Rank(stage) + 1) && (AllLossless(weather) ==> PresentBefore(h, Rank(stage) + 1))
  {
    assert forall s: Stage :: Rank(s) == Rank(stage) ==> s == stage;
    forall s: Stage | Rank(s) < Rank(stage) ensures IsDone(n, s, StageHash(input, c, s)) {
      assert IsDone(m, s, StageHash(input, c, s));
    }
  }

  lemma RecordsStep(m0: Manifest, m: Manifest, n: Manifest, executed: seq<Stage>, more: seq<Stage>, stage: Stage, input: nat, c: Config)
    requires Total(m) && Total(n) && RecordsFrom(m0, m, executed, input, c) && (forall s | s in more :: s == stage)
    requires (forall s | s in m && s != stage :: n[s] == m[s]) && RecordsKept(m, n, more, stage, StageHash(input, c, stage))
    ensures RecordsFrom(m0, n, executed + more, input, c)
  {
    forall s: Stage ensures RecordsKept(m0, n, executed + more, s, StageHash(input, c, s)) {
      assert RecordsKept(m0, m, executed, s, StageHash(input, c, s));
    }
  }

  lemma StepOnPlan(m: Manifest, f: Files, n: Manifest, h: Files, stale: set<Stage>, weather: Stage -> Weather,
                   input: nat, c: Config, stage: Stage)
    requires OnPlan(m, f, BadAt(stale, weather, Rank(stage)), input, c, Rank(stage)) && Total(m) && Total(n)
    requires var kept := Reusable(m, f - Decisive(stage, weather(stage)), stage, StageHash(input, c, stage));
             Framed(m, f, n, h, stage, Losses(stage, weather(stage), !kept))
    ensures OnPlan(n, h, BadAt(stale, weather, Rank(stage) + 1), input, c, Rank(stage) + 1)
  {
    var bad, w := BadAt(stale, weather, Rank(stage)), weather(stage);
    assert STAGES[Rank(stage)] == stage;
    assert Reusable(m, f, stage, StageHash(input, c, stage)) <==> stage !in bad;
    var next := BadAt(stale, weather, Rank(stage) + 1);
    assert next == bad + Losses(stage, w, stage in bad + Decisive(stage, w));
    forall s: Stage | Rank(stage) < Rank(s)
      ensures Reusable(n, h, s, StageHash(input, c, s)) <==> s !in next
    {
      assert Reusable(m, f, s, StageHash(input, c, s)) <==> s !in bad;
    }
  }

  /** Sound stays true when one stage gets a new record and perhaps its artifact. */
  lemma ExecutionSound(e: Engine, p: Provenance, q: Provenance, m0: Manifest, f0: Files, m: Manifest, f: Files, stage: Stage)
    requires Sound(e, p, m0, f0) && forall s | s != stage :: OriginOf(q, s) == OriginOf(p, s)
    requires stage in m && m == m0[stage := m[stage]] && (f == f0 || (stage in f && f == f0[stage := f[stage]]))
    requires m[stage].Done? && stage in f && !stage.Export? ==> f[stage] == Made(e, OriginOf(q, stage), m[stage].hash)
    ensures Sound(e, q, m, f)
  {
  }

  class Job {
    var manifest: Manifest
    var saved: Manifest
    var files: Files

    constructor ()
      ensures Total(manifest) && saved == manifest && files == map[]
      ensures forall s :: manifest[s] == Pending
    {
      manifest, files := map s | s in STAGES :: Pending, map[];
      saved := map s | s in STAGES :: Pending;
      AllStages();
    }

    ghost predicate Saved()
      reads this
    {
      Total(manifest) && saved == manifest && Typed(files)
    }

    /** A new process reads the manifest and saves it at once. */
    method Open()
      requires Total(saved) && Typed(files)
      modifies `manifest, `saved
      ensures Saved()
      ensures forall s :: saved[s] == Restored(old(saved)[s])
    {
      manifest := map s | s in saved :: Restored(saved[s]);
      saved := manifest;
    }

    method Put(stage: Stage, r: Record)
      requires Saved()
      modifies `manifest, `saved
      ensures Saved() && manifest == old(manifest)[stage := r]
    {
      manifest := manifest[stage := r];
      saved := manifest;
    }

    method Lose(stages: set<Stage>)
      modifies `files
      ensures files == old(files) - stages
      ensures old(Saved()) ==> Saved()
    {
      files := files - stages;
    }

    method StaleRoots(input: nat, c: Config, force: bool) returns (invalid: set<Stage>)
      ensures forall s: Stage :: s in invalid <==> force || StaleAtRoot(manifest, files, input, c, s)
    {
      AllStages();
      if force { return set s | s in STAGES; }
      invalid := {};
      for i := 0 to |STAGES|
        invariant forall s: Stage :: s in invalid <==> s in STAGES[..i] && StaleAtRoot(manifest, files, input, c, s)
      {
        var stage := STAGES[i];
        assert STAGES[..i + 1] == STAGES[..i] + [stage];
        if !Reusable(manifest, files, stage, StageHash(input, c, stage)) { invalid := invalid + {stage}; }
      }
    }

    method WithDependents(roots: set<Stage>) returns (invalid: set<Stage>)
      ensures forall s: Stage :: s in invalid <==> s in roots || exists a :: a in roots && s in Dependents(a)
    {
      invalid := roots;
      var left := roots;
      while left != {}
        invariant left <= roots
        invariant forall s: Stage :: s in invalid <==> s in roots || exists a :: a in roots - left && s in Dependents(a)
        decreases |left|
      {
        var stage :| stage in left;
        left := left - {stage};
        invalid := invalid + Dependents(stage);
      }
    }

    method Reconcile(input: nat, c: Config, force: bool)
      requires Saved()
      modifies `manifest, `saved
      ensures Saved()
      ensures forall s :: manifest[s] == if Stale(old(manifest), files, input, c, force, s) then Pending else old(manifest)[s]
    {
      var roots := StaleRoots(input, c, force);
      var invalid := WithDependents(roots);
      ClosureIsStale(manifest, files, input, c, force, roots, invalid);
      manifest := map s | s in manifest :: if s in invalid then Pending else manifest[s];
      saved := manifest;
    }

    /** One execution. `runnable` is false when an input file is gone: the operation raises. The
        artifact it makes has the origin that `q` gives it; `p` is the provenance before. */
    method ExecuteStage(stage: Stage, h: Hash, artifacts: bool, value: Option<nat>, runnable: bool, fate: Fate,
                        ghost e: Engine, ghost p: Provenance, ghost q: Provenance)
      returns (ok: bool, executed: seq<Stage>)
      requires Saved() && (stage.Asr? || stage.Merge? ==> value.Some?)
      requires forall s | s != stage :: OriginOf(q, s) == OriginOf(p, s)
      modifies this
      ensures Saved()
      ensures executed == if fate.CrashesBefore? || fate.CancelledBefore? then [] else [stage]
      ensures ok <==> runnable && fate.Finishes?
      ensures ok ==> manifest == old(manifest)[stage := Done(h, artifacts)] && files == old(files)[stage := value]
      ensures !ok && executed == [] ==> manifest == old(manifest) && files == old(files)
      ensures !ok && executed != [] ==> !manifest[stage].Done? && manifest == old(manifest)[stage := manifest[stage]]
      ensures !ok ==> files == old(files) || files == old(files)[stage := value]
      ensures old(Sound(e, p, manifest, files)) && (runnable ==> stage.Export? || value == Made(e, OriginOf(q, stage), h)) ==>
                Sound(e, if executed == [] then p else q, manifest, files)
    {
      ok, executed := false, [];
      if fate.CrashesBefore? || fate.CancelledBefore? { return; }
      ghost var m, f := manifest, files;
      Put(stage, Running(h));
      executed := [stage];
      if runnable && (fate.Finishes? || fate.artifact) { files := files[stage := value]; }
      if fate.Crashes? {
      } else if fate.Interrupted? {
        Put(stage, Pending);
      } else if !runnable || fate.Fails? {
        Put(stage, Failed(h));
      } else {
        Put(stage, Done(h, artifacts));
        ok := true;
      }
      if Sound(e, p, m, f) && (runnable ==> stage.Export? || value == Made(e, OriginOf(q, stage), h)) {
        ExecutionSound(e, p, q, m, f, manifest, files, stage);
      }
    }

    method AudioStage(e: Engine, input: nat, c: Config, w: Weather, ghost p: Provenance) returns (ok: bool, executed: seq<Stage>)
      requires Saved()
      modifies this
      ensures Saved() && Stepped(old(manifest), old(files), manifest, files, Audio, StageHash(input, c, Audio), ok, executed, w)
      ensures w.fate.Finishes? ==> ok
      ensures ok ==> Audio in files
      ensures old(Sound(e, p, manifest, files)) ==> Sound(e, p, manifest, files)
    {
      var h := StageHash(input, c, Audio);
      Lose(w.beforeCheck);
      ok, executed := true, [];
      if !Reusable(manifest, files, Audio, h) {
        Lose(w.beforeUse);
        ok, executed := ExecuteStage(Audio, h, true, Some(e.normalize(input)), true, w.fate, e, p, p);
      }
    }

    /** Checks a transcript or merge stage and loads its artifact if it is still there. */
    method Load(stage: Stage, h: Hash, w: Weather) returns (loaded: Option<nat>)
      requires Saved() && (stage.Asr? || stage.Merge?)
      modifies `files
      ensures Saved() && files == old(files) - Decisive(stage, w)
      ensures loaded.Some? <==> Reusable(manifest, files, stage, h)
      ensures loaded.Some? ==> loaded == files[stage]
    {
      loaded := None;
      Lose(w.beforeCheck);
      var kept := Reusable(manifest, files, stage, h);
      Lose(w.beforeUse);
      assert files == old(files) - Decisive(stage, w);
      if kept && stage in files { loaded := files[stage]; }
    }

    method AsrStage(e: Engine, input: nat, c: Config, w: Weather, ghost p: Provenance)
      returns (transcript: Option<nat>, executed: seq<Stage>)
      requires Saved()
      modifies this
      ensures Saved()
      ensures Stepped(old(manifest), old(files), manifest, files, Asr, StageHash(input, c, Asr), transcript.Some?, executed, w)
      ensures w.fate.Finishes? && Audio in files ==> transcript.Some?
      ensures old(Sound(e, p, manifest, files)) && IsDone(old(manifest), Audio, StageHash(input, c, Audio)) ==>
                var q := After(p, executed, c.diarization.enabled, false);
                Sound(e, q, manifest, files) && (transcript.Some? ==> transcript == Made(e, OriginOf(q, Asr), StageHash(input, c, Asr)))
    {
      var h := StageHash(input, c, Asr);
      executed := [];
      transcript := Load(Asr, h, w);
      ghost var q := After(p, [Asr], c.diarization.enabled, false);
      MadeIs(e, OriginOf(q, Asr), input, c);
      MadeIs(e, OriginOf(p, Audio), input, c);
      if transcript.None? {
        var value := Transcript(e, if Audio in files then Value(files[Audio]) else 0, c);
        var ok;
        ok, executed := ExecuteStage(Asr, h, true, Some(value), Audio in files, w.fate, e, p, q);
        if ok { transcript := Some(value); }
      }
    }

    /** `missed` tells that a reusable artifact was gone when it was loaded. */
    method DiarizationStage(e: Engine, input: nat, c: Config, w: Weather, ghost p: Provenance)
      returns (ok: bool, turns: Option<nat>, executed: seq<Stage>, missed: bool)
      requires Saved()
      modifies this
      ensures Saved()
      ensures Stepped(old(manifest), old(files), manifest, files, Diarization, StageHash(input, c, Diarization), ok, executed, w)
      ensures missed <==> Diarization in w.beforeUse
                          && old(Reusable(manifest, files - w.beforeCheck, Diarization, StageHash(input, c, Diarization)))
      ensures missed ==> ok && turns == None
      ensures w.fate.Finishes? && Audio in files ==> ok
      ensures old(Sound(e, p, manifest, files)) && IsDone(old(manifest), Audio, StageHash(input, c, Audio)) ==>
                && Sound(e, p, manifest, files)
                && (ok ==> (turns == FromScratch(e, input, c, Diarization) <==> !(missed && c.diarization.enabled)))
    {
      var h := StageHash(input, c, Diarization);
      ok, turns, executed, missed := true, None, [], false;
      Lose(w.beforeCheck);
      MadeIs(e, OriginOf(p, Diarization), input, c);
      MadeIs(e, OriginOf(p, Audio), input, c);
      if Reusable(manifest, files, Diarization, h) {
        Lose(w.beforeUse);
        if Diarization in files { turns := files[Diarization]; } else { missed := true; }
      } else {
        Lose(w.beforeUse);
        var value := Turns(e, if Audio in files then Value(files[Audio]) else 0, c);
        ok, executed := ExecuteStage(Diarization, h, true, value, c.diarization.enabled ==> Audio in files, w.fate, e, p, p);
        if ok { turns := value; }
      }
    }

    /** `missed` says that the turns given are none because they were lost. */
    method MergeStage(e: Engine, input: nat, c: Config, transcript: nat, turns: Option<nat>, w: Weather,
                      ghost missed: bool, ghost p: Provenance)
      returns (result: Option<nat>, executed: seq<Stage>)
      requires Saved()
      modifies this
      ensures Saved()
      ensures Stepped(old(manifest), old(files), manifest, files, Merge, StageHash(input, c, Merge), result.Some?, executed, w)
      ensures result.Some? && executed != [] ==> result.value == e.combine(transcript, turns, c.alignment)
      ensures w.fate.Finishes? ==> result.Some?
      ensures old(Sound(e, p, manifest, files)) && Some(transcript) == Made(e, OriginOf(p, Asr), StageHash(input, c, Asr))
              && turns == (if missed then None else FromScratch(e, input, c, Diarization)) ==>
                var q := After(p, executed, c.diarization.enabled, missed);
                Sound(e, q, manifest, files) && (result.Some? ==> result == Made(e, q.merged, StageHash(input, c, Merge)))
    {
      var h := StageHash(input, c, Merge);
      executed := [];
      result := Load(Merge, h, w);
      ghost var q := After(p, [Merge], c.diarization.enabled, missed);
      MadeIs(e, q.merged, input, c);
      MadeIs(e, OriginOf(p, Asr), input, c);
      if result.None? {
        var value := e.combine(transcript, turns, c.alignment);
        var ok;
        ok, executed := ExecuteStage(Merge, h, true, Some(value), true, w.fate, e, p, q);
        if ok { result := Some(value); }
      }
    }

    method ExportStage(e: Engine, input: nat, c: Config, w: Weather, ghost p: Provenance) returns (ok: bool, executed: seq<Stage>)
      requires Saved()
      modifies this
      ensures Saved() && Stepped(old(manifest), old(files), manifest, files, Export, StageHash(input, c, Export), ok, executed, w)
      ensures w.fate.Finishes? ==> ok
      ensures old(Sound(e, p, manifest, files)) ==> Sound(e, p, manifest, files)
    {
      var h := StageHash(input, c, Export);
      Lose(w.beforeCheck);
      ok, executed := true, [];
      if !Reusable(manifest, files, Export, h) {
        Lose(w.beforeUse);
        ok, executed := ExecuteStage(Export, h, c.output.formats > 0, None, true, w.fate, e, p, p);
      }
    }

    method Prepare(input: nat, c: Config, force: bool, weather: Stage -> Weather,
                   ghost stale: set<Stage>, ghost e: Engine, ghost p: Provenance)
      requires Total(saved) && Typed(files) && stale == StaleStages(saved, files, input, c, force)
      modifies `manifest, `saved
      ensures Saved() && RecordsFrom(old(saved), manifest, [], input, c)
      ensures old(Sound(e, p, saved, files)) ==> Sound(e, p, manifest, files)
      ensures Following(manifest, files, stale, weather, input, c, 0, [])
    {
      ghost var m0 := saved;
      Open();
      ghost var m1 := saved;
      Reconcile(input, c, force);
      ReconciledOnPlan(m1, manifest, m0, files, input, c, force);
    }

    /** Opening, reconciling, and the audio stage. */
    method Begin(e: Engine, input: nat, c: Config, force: bool, weather: Stage -> Weather, ghost stale: set<Stage>, ghost p: Provenance)
      returns (ok: bool, executed: seq<Stage>)
      requires Total(saved) && Typed(files) && stale == StaleStages(saved, files, input, c, force)
      modifies this
      ensures Saved() && RecordsFrom(old(saved), manifest, executed, input, c)
      ensures executed == [] || executed == [Audio]
      ensures old(Sound(e, p, saved, files)) ==> Sound(e, p, manifest, files)
      ensures exists k: nat :: StaleUpTo(executed, Due(stale, weather), k)
      ensures ok ==> Audio in files && Following(manifest, files, stale, weather, input, c, 1, executed)
      ensures AllFinish(weather) ==> ok
    {
      ghost var m0, f := saved, files;
      Prepare(input, c, force, weather, stale, e, p);
      ghost var m := manifest;
      ok, executed := AudioStage(e, input, c, weather(Audio), p);
      StepFollows(m0, m, f, manifest, files, stale, weather, input, c, Audio, [], ok, executed);
      assert [] + executed == executed;
    }

    method Hear(e: Engine, input: nat, c: Config, weather: Stage -> Weather, before: seq<Stage>,
                ghost m0: Manifest, ghost stale: set<Stage>, ghost p: Provenance)
      returns (transcript: Option<nat>, executed: seq<Stage>)
      requires Saved() && (before == [] || before == [Audio]) && RecordsFrom(m0, manifest, before, input, c)
      requires Following(manifest, files, stale, weather, input, c, 1, before)
      modifies this
      ensures Saved() && RecordsFrom(m0, manifest, executed, input, c) && Merge !in executed
      ensures exists k: nat :: StaleUpTo(executed, Due(stale, weather), k)
      ensures transcript.Some? ==> Following(manifest, files, stale, weather, input, c, 2, executed)
      ensures old(Sound(e, p, manifest, files)) ==>
                var q := After(p, executed, c.diarization.enabled, false);
                Sound(e, q, manifest, files) && (transcript.Some? ==> transcript == Made(e, OriginOf(q, Asr), StageHash(input, c, Asr)))
      ensures KeepsAudio(weather) && Audio in old(files) ==> Audio in files && (AllFinish(weather) ==> transcript.Some?)
    {
      ghost var m, f := manifest, files;
      var more;
      assert Rank(Audio) < 1;
      transcript, more := AsrStage(e, input, c, weather(Asr), p);
      executed := before + more;
      StepFollows(m0, m, f, manifest, files, stale, weather, input, c, Asr, before, transcript.Some?, more);
      assert After(p, executed, c.diarization.enabled, false) == After(p, more, c.diarization.enabled, false);
    }

    /** The turns of a run that has a transcript. */
    method Diarize(e: Engine, input: nat, c: Config, weather: Stage -> Weather, before: seq<Stage>,
                   ghost m0: Manifest, ghost stale: set<Stage>, ghost p: Provenance)
      returns (ok: bool, turns: Option<nat>, executed: seq<Stage>, missed: bool)
      requires Saved() && RecordsFrom(m0, manifest, before, input, c)
      requires Following(manifest, files, stale, weather, input, c, 2, before)
      modifies this
      ensures Saved() && RecordsFrom(m0, manifest, executed, input, c)
      ensures executed == before || executed == before + [Diarization]
      ensures exists k: nat :: StaleUpTo(executed, Due(stale, weather), k)
      ensures ok ==> Following(manifest, files, stale, weather, input, c, 3, executed)
      ensures if ok then missed <==> Misses(stale, weather) else !missed
      ensures old(Sound(e, p, manifest, files)) ==>
                Sound(e, p, manifest, files) && (ok ==> turns == if missed then None else FromScratch(e, input, c, Diarization))
      ensures AllFinish(weather) && KeepsAudio(weather) && Audio in old(files) ==> ok
    {
      ghost var m, f := manifest, files;
      var more;
      assert Rank(Audio) < 2;
      ok, turns, more, missed := DiarizationStage(e, input, c, weather(Diarization), p);
      executed := before + more;
      StepFollows(m0, m, f, manifest, files, stale, weather, input, c, Diarization, before, ok, more);
      assert before + [] == before;
    }

    method Combine(e: Engine, input: nat, c: Config, weather: Stage -> Weather, transcript: nat, turns: Option<nat>,
                   before: seq<Stage>, ghost m0: Manifest, ghost stale: set<Stage>, ghost missed: bool, ghost p: Provenance)
      returns (result: Option<nat>, executed: seq<Stage>)
      requires Saved() && Merge !in before && RecordsFrom(m0, manifest, before, input, c)
      requires Following(manifest, files, stale, weather, input, c, 3, before)
      modifies this
      ensures Saved() && RecordsFrom(m0, manifest, executed, input, c) && DoneBefore(manifest, input, c, 3)
      ensures executed == before || executed == before + [Merge]
      ensures exists k: nat :: StaleUpTo(executed, Due(stale, weather), k)
      ensures result.Some? ==> Following(manifest, files, stale, weather, input, c, 4, executed)
      ensures old(Sound(e, p, manifest, files)) && Some(transcript) == Made(e, OriginOf(p, Asr), StageHash(input, c, Asr))
              && turns == (if missed then None else FromScratch(e, input, c, Diarization)) ==>
                var o := if Merge in executed then Origin(p.transcript, missed) else p.merged;
                && Sound(e, Provenance(p.transcript, o), manifest, files)
                && (result.Some? ==> result == Made(e, o, StageHash(input, c, Merge)))
      ensures AllFinish(weather) ==> result.Some?
    {
      ghost var m, f := manifest, files;
      var more;
      result, more := MergeStage(e, input, c, transcript, turns, weather(Merge), missed, p);
      executed := before + more;
      StepFollows(m0, m, f, manifest, files, stale, weather, input, c, Merge, before, result.Some?, more);
      assert before + [] == before;
      assert After(p, more, c.diarization.enabled, missed)
          == Provenance(p.transcript, if Merge in executed then Origin(p.transcript, missed) else p.merged);
    }

    method Write(e: Engine, input: nat, c: Config, weather: Stage -> Weather, before: seq<Stage>,
                 ghost m0: Manifest, ghost stale: set<Stage>, ghost p: Provenance)
      returns (ok: bool, executed: seq<Stage>)
      requires Saved() && RecordsFrom(m0, manifest, before, input, c)
      requires Following(manifest, files, stale, weather, input, c, 4, before)
      modifies this
      ensures Saved() && RecordsFrom(m0, manifest, executed, input, c) && DoneBefore(manifest, input, c, 4)
      ensures executed == before || executed == before + [Export]
      ensures exists k: nat :: StaleUpTo(executed, Due(stale, weather), k)
      ensures ok ==> Following(manifest, files, stale, weather, input, c, 5, executed)
      ensures old(Sound(e, p, manifest, files)) ==> Sound(e, p, manifest, files)
      ensures AllFinish(weather) ==> ok
    {
      ghost var m, f := manifest, files;
      var more;
      ok, more := ExportStage(e, input, c, weather(Export), p);
      executed := before + more;
      StepFollows(m0, m, f, manifest, files, stale, weather, input, c, Export, before, ok, more);
      assert before + [] == before;
    }

    /** The transcript and the turns of a run whose audio stage is done. */
    method Inputs(e: Engine, input: nat, c: Config, weather: Stage -> Weather, before: seq<Stage>,
                  ghost m0: Manifest, ghost stale: set<Stage>, ghost p: Provenance)
      returns (transcript: nat, ok: bool, turns: Option<nat>, executed: seq<Stage>, missed: bool)
      requires Saved() && (before == [] || before == [Audio]) && RecordsFrom(m0, manifest, before, input, c)
      requires Following(manifest, files, stale, weather, input, c, 1, before)
      modifies this
      ensures Saved() && RecordsFrom(m0, manifest, executed, input, c) && Merge !in executed
      ensures exists k: nat :: StaleUpTo(executed, Due(stale, weather), k)
      ensures ok ==> Following(manifest, files, stale, weather, input, c, 3, executed)
      ensures if ok then missed <==> Misses(stale, weather) else !missed
      ensures old(Sound(e, p, manifest, files)) ==>
                var q := After(p, executed, c.diarization.enabled, false);
                && Sound(e, q, manifest, files)
                && (ok ==> Some(transcript) == Made(e, OriginOf(q, Asr), StageHash(input, c, Asr)))
                && (ok ==> turns == if missed then None else FromScratch(e, input, c, Diarization))
      ensures AllFinish(weather) && KeepsAudio(weather) && Audio in old(files) ==> ok
    {
      transcript, ok, turns, missed := 0, false, None, false;
      var heard;
      heard, executed := Hear(e, input, c, weather, before, m0, stale, p);
      if heard.None? { return; }
      transcript := heard.value;
      ghost var q := After(p, executed, c.diarization.enabled, false);
      ok, turns, executed, missed := Diarize(e, input, c, weather, executed, m0, stale, q);
      assert q == After(p, executed, c.diarization.enabled, false);
    }

    /** The merge and export of a run that has a transcript and turns. */
    method Finish(e: Engine, input: nat, c: Config, weather: Stage -> Weather, transcript: nat, turns: Option<nat>,
                  before: seq<Stage>, ghost m0: Manifest, ghost stale: set<Stage>, ghost missed: bool, ghost p: Provenance)
      returns (outcome: Outcome, executed: seq<Stage>)
      requires Saved() && Merge !in before && RecordsFrom(m0, manifest, before, input, c)
      requires Following(manifest, files, stale, weather, input, c, 3, before)
      modifies this
      ensures Saved() && RecordsFrom(m0, manifest, executed, input, c) && IsDone(manifest, Asr, StageHash(input, c, Asr))
      ensures Asr in executed <==> Asr in before
      ensures exists k: nat :: StaleUpTo(executed, Due(stale, weather), k)
      ensures outcome.Returned? ==> Following(manifest, files, stale, weather, input, c, 5, executed)
      ensures old(Sound(e, p, manifest, files)) && Some(transcript) == Made(e, OriginOf(p, Asr), StageHash(input, c, Asr))
              && turns == (if missed then None else FromScratch(e, input, c, Diarization)) ==>
                var o := if Merge in executed then Origin(p.transcript, missed) else p.merged;
                && Sound(e, Provenance(p.transcript, o), manifest, files)
                && (outcome.Returned? ==> Some(outcome.result) == Made(e, o, StageHash(input, c, Merge)))
      ensures AllFinish(weather) ==> outcome.Returned?
    {
      var result;
      result, executed := Combine(e, input, c, weather, transcript, turns, before, m0, stale, missed, p);
      assert Rank(Asr) < 3;
      if result.None? { return Stopped, executed; }
      ghost var q := Provenance(p.transcript, if Merge in executed then Origin(p.transcript, missed) else p.merged);
      var ok;
      ok, executed := Write(e, input, c, weather, executed, m0, stale, q);
      outcome := if ok then Returned(result.value) else Stopped;
    }

    /** One run of the pipeline on `input`: open, reconcile, then the five stages. It executes the
        due stages, in order, and its result has the origin that the run gives it. */
    method Run(e: Engine, input: nat, c: Config, force: bool, weather: Stage -> Weather, ghost p: Provenance)
      returns (outcome: Outcome, executed: seq<Stage>, missed: bool)
      requires Total(saved) && Typed(files)
      modifies this
      ensures Total(saved) && Typed(files) && RecordsFrom(old(saved), saved, executed, input, c)
      ensures old(Sound(e, p, saved, files)) ==>
                var q := After(p, executed, c.diarization.enabled, missed);
                && Sound(e, q, saved, files)
                && (outcome.Returned? ==> Some(outcome.result) == Made(e, q.merged, StageHash(input, c, Merge)))
      ensures Executes(outcome, executed, missed, StaleStages(old(saved), old(files), input, c, force), weather)
      ensures outcome.Returned? ==> DoneBefore(saved, input, c, 5) && (AllLossless(weather) ==> PresentBefore(files, 5))
      ensures Merge in executed ==> IsDone(saved, Asr, StageHash(input, c, Asr))
    {
      ghost var stale, m0 := StaleStages(saved, files, input, c, force), saved;
      missed := false;
      var ok, transcript, turns;
      ok, executed := Begin(e, input, c, force, weather, stale, p);
      if !ok { return Stopped, executed, missed; }
      transcript, ok, turns, executed, missed := Inputs(e, input, c, weather, executed, m0, stale, p);
      if !ok { return Stopped, executed, missed; }
      ghost var q := After(p, executed, c.diarization.enabled, false);
      outcome, executed := Finish(e, input, c, weather, transcript, turns, executed, m0, stale, missed, q);
    }
  }

  /** A run executes the due stages in order, all of them when it returns. If it returns or executes
      the merge, it has missed the turns exactly when they are lost between their check and their
      use. It returns when every execution finishes and the audio stays. */
  ghost predicate Executes(outcome: Outcome, executed: seq<Stage>, missed: bool, stale: set<Stage>, weather: Stage -> Weather) {
    && (exists k: nat :: StaleUpTo(executed, Due(stale, weather), k))
    && (outcome.Returned? ==> StaleUpTo(executed, Due(stale, weather), 5))
    && (outcome.Returned? || Merge in executed ==> (missed <==> Misses(stale, weather)))
    && (AllFinish(weather) && KeepsAudio(weather) ==> outcome.Returned?)
  }

  // ---------------------------------------------------------------- sessions

  /** Whether a run merges anew although the turns it needs are lost after their check. */
  ghost predicate MergesWithoutTurns(c: Config, stale: set<Stage>, weather: Stage -> Weather) {
    c.diarization.enabled && Misses(stale, weather) && Merge in Due(stale, weather)
  }

  /** With artifacts of right origin, or due to be made again, a run that returns has the
      from-scratch result on every engine exactly when it does not merge without the turns. */
  lemma ResultIsRightIff(input: nat, c: Config, stale: set<Stage>, weather: Stage -> Weather, p: Provenance,
                         outcome: Outcome, executed: seq<Stage>, missed: bool)
    requires outcome.Returned? && Executes(outcome, executed, missed, stale, weather)
    requires Asr in Due(stale, weather) || Right(c, OriginOf(p, Asr), Asr)
    requires Merge in Due(stale, weather) || Right(c, OriginOf(p, Merge), Merge)
    ensures var o := After(p, executed, c.diarization.enabled, missed).merged;
            (forall e: Engine :: Made(e, o, StageHash(input, c, Merge)) == FromScratch(e, input, c, Merge))
            <==> !MergesWithoutTurns(c, stale, weather)
  {
    RightIff(input, c, After(p, executed, c.diarization.enabled, missed).merged, Merge);
    assert Asr in executed <==> Asr in Due(stale, weather);
    assert Merge in executed <==> Merge in Due(stale, weather);
  }

  /** One run of a session, and the artifacts that get lost before it. */
  datatype Plan = Plan(lost: set<Stage>, config: Config, force: bool, weather: Stage -> Weather)

  /** What a run did, and the manifest and artifacts it left. */
  datatype Report = Report(outcome: Outcome, executed: seq<Stage>, missed: bool, manifest: Manifest, files: Files)

  /** The provenance after the first `n` runs. */
  ghost function ProvenanceAt(runs: seq<Plan>, reports: seq<Report>, n: nat): Provenance
    requires n <= |runs| && n <= |reports|
  {
    if n == 0 then Provenance(false, Origin(false, false))
    else After(ProvenanceAt(runs, reports, n - 1), reports[n - 1].executed, runs[n - 1].config.diarization.enabled, reports[n - 1].missed)
  }

  /** The stale stages that run `i` finds. */
  ghost function StaleBefore(input: nat, runs: seq<Plan>, reports: seq<Report>, i: nat): set<Stage>
    requires i < |runs| && i <= |reports|
  {
    var r := runs[i];
    if i == 0 then StaleStages(map[], map[], input, r.config, r.force)
    else StaleStages(reports[i - 1].manifest, reports[i - 1].files - r.lost, input, r.config, r.force)
  }

  /** Every finished record tells whether its execution listed artifacts. */
  ghost predicate Flagged(m: Manifest) {
    forall s {:trigger m[s]} | s in m && m[s].Done? :: m[s].artifacts == Listed(m[s].hash)
  }

  lemma StaysFlagged(m0: Manifest, m: Manifest, executed: seq<Stage>, input: nat, c: Config)
    requires Flagged(m0) && RecordsFrom(m0, m, executed, input, c)
    ensures Flagged(m)
  {
    forall s | s in m && m[s].Done? ensures m[s].artifacts == Listed(m[s].hash) {
      assert RecordsKept(m0, m, executed, s, StageHash(input, c, s));
    }
  }

  /** Run `i` executed what was due, and if it returned, its result and every artifact at hand is
      the one that its hash and origin stand for. */
  ghost predicate Accounted(e: Engine, input: nat, runs: seq<Plan>, reports: seq<Report>, i: nat)
    requires i < |runs| && i < |reports|
  {
    var c, r, p := runs[i].config, reports[i], ProvenanceAt(runs, reports, i + 1);
    && Executes(r.outcome, r.executed, r.missed, StaleBefore(input, runs, reports, i), runs[i].weather)
    && Flagged(r.manifest)
    && (r.outcome.Returned? ==>
          && DoneBefore(r.manifest, input, c, 5) && (AllLossless(runs[i].weather) ==> PresentBefore(r.files, 5))
          && Some(r.outcome.result) == Made(e, p.merged, StageHash(input, c, Merge))
          && forall s {:trigger r.files[s]} | s in r.files && !s.Export? :: r.files[s] == Made(e, OriginOf(p, s), StageHash(input, c, s)))
  }

  /** Diarization is switched the way `enabledFor` says whenever the transcript depends on it. */
  predicate Steady(enabledFor: AsrSettings -> bool, c: Config) {
    Sensitive(c.asr) ==> c.diarization.enabled == enabledFor(c.asr)
  }

  /** The artifacts at hand were made that way. */
  ghost predicate SteadyOrigins(enabledFor: AsrSettings -> bool, p: Provenance, m: Manifest) {
    && (Asr in m && m[Asr].Done? ==> SteadyHash(enabledFor, p.transcript, m[Asr].hash))
    && (Merge in m && m[Merge].Done? && m[Merge].hash.MergeHash? ==>
          SteadyHash(enabledFor, p.merged.enabled, m[Merge].hash.transcript))
  }

  ghost predicate SteadyHash(enabledFor: AsrSettings -> bool, enabled: bool, h: Hash) {
    h.AsrHash? && Sensitive(h.asr) ==> enabled == enabledFor(h.asr)
  }

  lemma StaysSteady(g: AsrSettings -> bool, p: Provenance, m0: Manifest, m: Manifest, executed: seq<Stage>, missed: bool,
                    input: nat, c: Config)
    requires SteadyOrigins(g, p, m0) && Steady(g, c) && RecordsFrom(m0, m, executed, input, c)
    requires Merge in executed ==> IsDone(m, Asr, StageHash(input, c, Asr))
    ensures SteadyOrigins(g, After(p, executed, c.diarization.enabled, missed), m)
  {
    assert RecordsKept(m0, m, executed, Asr, StageHash(input, c, Asr));
    assert RecordsKept(m0, m, executed, Merge, StageHash(input, c, Merge));
  }

  /** The session so far: every run is accounted for, and the job is as the last one left it. */
  ghost predicate InSession(e: Engine, input: nat, runs: seq<Plan>, reports: seq<Report>, m: Manifest, files: Files) {
    && |reports| <= |runs| && Total(m) && Typed(files) && Flagged(m)
    && (if reports == [] then files == map[] && forall s :: m[s] == Pending
        else reports[|reports| - 1].manifest == m && reports[|reports| - 1].files == files)
    && Sound(e, ProvenanceAt(runs, reports, |reports|), m, files)
    && forall j | 0 <= j < |reports| :: Accounted(e, input, runs, reports, j)
  }

  /** The transcripts of run `i` do not hide a switch of diarization. */
  predicate SwitchFree(c: Config, p: Provenance) {
    Right(c, OriginOf(p, Asr), Asr) && Right(c, p.merged.(bare := false), Merge)
  }

  ghost predicate SteadySoFar(g: AsrSettings -> bool, runs: seq<Plan>, reports: seq<Report>, m: Manifest) {
    && |reports| <= |runs| && SteadyOrigins(g, ProvenanceAt(runs, reports, |reports|), m)
    && forall j {:trigger reports[j]} | 0 <= j < |reports| && reports[j].outcome.Returned? ::
         SwitchFree(runs[j].config, ProvenanceAt(runs, reports, j + 1))
  }

  method NextRun(job: Job, e: Engine, input: nat, runs: seq<Plan>, reports: seq<Report>, ghost g: AsrSettings -> bool)
    returns (more: seq<Report>)
    requires InSession(e, input, runs, reports, job.saved, job.files) && |reports| < |runs|
    modifies job
    ensures |more| == |reports| + 1 && InSession(e, input, runs, more, job.saved, job.files)
    ensures old(SteadySoFar(g, runs, reports, job.saved)) && Steady(g, runs[|reports|].config) ==> SteadySoFar(g, runs, more, job.saved)
  {
    ghost var i := |reports|;
    var r := runs[|reports|];
    ghost var p, m0 := ProvenanceAt(runs, reports, i), job.saved;
    job.Lose(r.lost);
    if reports == [] { NothingYet(job.saved, job.files, input, r.config, r.force); }
    assert StaleStages(job.saved, job.files, input, r.config, r.force) == StaleBefore(input, runs, reports, i);
    var outcome, executed, missed := job.Run(e, input, r.config, r.force, r.weather, p);
    var report := Report(outcome, executed, missed, job.saved, job.files);
    more := reports + [report];
    StaysFlagged(m0, job.saved, executed, input, r.config);
    OneMoreReport(e, input, runs, reports, report);
    OneMoreAccounted(e, input, runs, reports, report);
    if SteadySoFar(g, runs, reports, m0) && Steady(g, r.config) { OneMoreSteady(g, input, runs, reports, report, m0); }
  }

  lemma OneMoreAccounted(e: Engine, input: nat, runs: seq<Plan>, reports: seq<Report>, r: Report)
    requires |reports| < |runs| && Total(r.manifest) && Typed(r.files) && Flagged(r.manifest)
    requires forall j | 0 <= j < |reports| :: Accounted(e, input, runs, reports, j)
    requires var c, weather := runs[|reports|].config, runs[|reports|].weather;
             var q := After(ProvenanceAt(runs, reports, |reports|), r.executed, c.diarization.enabled, r.missed);
             && Executes(r.outcome, r.executed, r.missed, StaleBefore(input, runs, reports, |reports|), weather)
             && Sound(e, q, r.manifest, r.files)
             && (r.outcome.Returned? ==>
                   && DoneBefore(r.manifest, input, c, 5) && (AllLossless(weather) ==> PresentBefore(r.files, 5))
                   && Some(r.outcome.result) == Made(e, q.merged, StageHash(input, c, Merge)))
    ensures InSession(e, input, runs, reports + [r], r.manifest, r.files)
  {
    var more, i := reports + [r], |reports|;
    OneMoreReport(e, input, runs, reports, r);
    LastAccounted(e, input, runs, more, i);
    forall j | 0 <= j < |more| ensures Accounted(e, input, runs, more, j) {
      if j < i { assert Accounted(e, input, runs, reports, j); }
    }
  }

  lemma LastAccounted(e: Engine, input: nat, runs: seq<Plan>, reports: seq<Report>, i: nat)
    requires i < |runs| && |reports| == i + 1 && Flagged(reports[i].manifest)
    requires var c, r, q := runs[i].config, reports[i], ProvenanceAt(runs, reports, i + 1);
             && Executes(r.outcome, r.executed, r.missed, StaleBefore(input, runs, reports, i), runs[i].weather)
             && Sound(e, q, r.manifest, r.files)
             && (r.outcome.Returned? ==>
                   && DoneBefore(r.manifest, input, c, 5) && (AllLossless(runs[i].weather) ==> PresentBefore(r.files, 5))
                   && Some(r.outcome.result) == Made(e, q.merged, StageHash(input, c, Merge)))
    ensures Accounted(e, input, runs, reports, i)
  {
    var r := reports[i];
    if r.outcome.Returned? { ArtifactsAtHand(e, ProvenanceAt(runs, reports, i + 1), r.manifest, r.files, input, runs[i].config); }
  }

  lemma OneMoreSteady(g: AsrSettings -> bool, input: nat, runs: seq<Plan>, reports: seq<Report>, r: Report, m0: Manifest)
    requires |reports| < |runs| && SteadySoFar(g, runs, reports, m0) && Steady(g, runs[|reports|].config)
    requires RecordsFrom(m0, r.manifest, r.executed, input, runs[|reports|].config)
    requires Merge in r.executed ==> IsDone(r.manifest, Asr, StageHash(input, runs[|reports|].config, Asr))
    requires r.outcome.Returned? ==> DoneBefore(r.manifest, input, runs[|reports|].config, 5)
    requires forall j: nat {:trigger ProvenanceAt(runs, reports, j)} | j <= |reports| ::
               ProvenanceAt(runs, reports + [r], j) == ProvenanceAt(runs, reports, j)
    ensures SteadySoFar(g, runs, reports + [r], r.manifest)
  {
    var more, c := reports + [r], runs[|reports|].config;
    StaysSteady(g, ProvenanceAt(runs, reports, |reports|), m0, r.manifest, r.executed, r.missed, input, c);
    assert ProvenanceAt(runs, more, |more|) == After(ProvenanceAt(runs, more, |reports|), r.executed, c.diarization.enabled, r.missed);
    forall j {:trigger more[j]} | 0 <= j < |more| && more[j].outcome.Returned?
      ensures SwitchFree(runs[j].config, ProvenanceAt(runs, more, j + 1))
    {
      if j < |reports| {
        assert more[j] == reports[j] && ProvenanceAt(runs, more, j + 1) == ProvenanceAt(runs, reports, j + 1);
      } else {
        assert Rank(Asr) < 5 && Rank(Merge) < 5;
        assert IsDone(r.manifest, Asr, StageHash(input, c, Asr)) && IsDone(r.manifest, Merge, StageHash(input, c, Merge));
      }
    }
  }

  /** After a run that returned, the artifacts at hand are those of its configuration. */
  lemma ArtifactsAtHand(e: Engine, p: Provenance, m: Manifest, files: Files, input: nat, c: Config)
    requires Sound(e, p, m, files) && DoneBefore(m, input, c, 5)
    ensures forall s {:trigger files[s]} | s in files && !s.Export? :: files[s] == Made(e, OriginOf(p, s), StageHash(input, c, s))
  {
    forall s | s in files && !s.Export? ensures files[s] == Made(e, OriginOf(p, s), StageHash(input, c, s)) {
      assert Rank(s) < 5 && IsDone(m, s, StageHash(input, c, s));
    }
  }

  /** Any sequence of runs of one job, with changing configurations, crashes, failures,
      cancellations and losses. Every run is accounted for, and when diarization is switched only
      as `g` says, no transcript hides a switch. */
  method Session(e: Engine, input: nat, runs: seq<Plan>, ghost g: AsrSettings -> bool) returns (reports: seq<Report>)
    ensures |reports| == |runs|
    ensures forall i | 0 <= i < |runs| :: Accounted(e, input, runs, reports, i)
    ensures (forall r | r in runs :: Steady(g, r.config)) ==>
              forall i {:trigger reports[i]} | 0 <= i < |runs| && reports[i].outcome.Returned? ::
                SwitchFree(runs[i].config, ProvenanceAt(runs, reports, i + 1))
  {
    var job := new Job();
    reports := [];
    while |reports| < |runs|
      invariant fresh(job) && InSession(e, input, runs, reports, job.saved, job.files)
      invariant (forall r | r in runs :: Steady(g, r.config)) ==> SteadySoFar(g, runs, reports, job.saved)
      decreases |runs| - |reports|
    {
      assert runs[|reports|] in runs;
      reports := NextRun(job, e, input, runs, reports, g);
    }
  }

  /** After `n` runs the merged result at hand was made by a run that lost the turns between their
      check and their use. */
  ghost predicate MadeBare(input: nat, runs: seq<Plan>, reports: seq<Report>, n: nat)
    requires n <= |runs| && n <= |reports|
  {
    exists k: nat {:trigger MadeMerge(reports, k, n)} :: k < n && MadeMerge(reports, k, n) && Misses(StaleBefore(input, runs, reports, k), runs[k].weather)
  }

  /** Of the first `n` runs, run `k` is the last one to execute the merge. */
  ghost predicate MadeMerge(reports: seq<Report>, k: nat, n: nat)
    requires k < n <= |reports|
  {
    Merge in reports[k].executed && forall j {:trigger reports[j]} | k < j < n :: Merge !in reports[j].executed
  }

  lemma {:induction false} BareIff(e: Engine, input: nat, runs: seq<Plan>, reports: seq<Report>, n: nat)
    requires n <= |runs| && n <= |reports| && forall j | 0 <= j < n :: Accounted(e, input, runs, reports, j)
    ensures ProvenanceAt(runs, reports, n).merged.bare <==> MadeBare(input, runs, reports, n)
  {
    if n > 0 {
      BareIff(e, input, runs, reports, n - 1);
      assert Accounted(e, input, runs, reports, n - 1);
      MadeBareStep(input, runs, reports, n);
    }
  }

  lemma MadeBareStep(input: nat, runs: seq<Plan>, reports: seq<Report>, n: nat)
    requires 0 < n <= |runs| && n <= |reports|
    ensures MadeBare(input, runs, reports, n)
       <==> if Merge in reports[n - 1].executed then Misses(StaleBefore(input, runs, reports, n - 1), runs[n - 1].weather)
            else MadeBare(input, runs, reports, n - 1)
  {
    if Merge in reports[n - 1].executed {
      assert MadeMerge(reports, n - 1, n);
      forall k | 0 <= k < n - 1 ensures !MadeMerge(reports, k, n) { assert k < n - 1 < n && Merge in reports[n - 1].executed; }
    } else {
      if MadeBare(input, runs, reports, n) {
        var k: nat :| k < n && MadeMerge(reports, k, n) && Misses(StaleBefore(input, runs, reports, k), runs[k].weather);
        assert k < n - 1 && MadeMerge(reports, k, n - 1);
      }
      if MadeBare(input, runs, reports, n - 1) {
        var k: nat :| k < n - 1 && MadeMerge(reports, k, n - 1) && Misses(StaleBefore(input, runs, reports, k), runs[k].weather);
        assert MadeMerge(reports, k, n);
      }
    }
  }

  /** In a session, a run that returns and whose transcripts hide no switch has the from-scratch
      result on every engine exactly when diarization is off or the run that made the merge, this
      one or an earlier one, did not lose the turns between their check and their use. */
  lemma {:induction false} SessionResultIff(e: Engine, input: nat, runs: seq<Plan>, reports: seq<Report>, i: nat)
    requires i < |runs| && i < |reports| && forall j | 0 <= j <= i :: Accounted(e, input, runs, reports, j)
    requires reports[i].outcome.Returned? && SwitchFree(runs[i].config, ProvenanceAt(runs, reports, i + 1))
    ensures var c, o := runs[i].config, ProvenanceAt(runs, reports, i + 1).merged;
            && Some(reports[i].outcome.result) == Made(e, o, StageHash(input, c, Merge))
            && ((forall x: Engine :: Made(x, o, StageHash(input, c, Merge)) == FromScratch(x, input, c, Merge))
                <==> !(c.diarization.enabled && MadeBare(input, runs, reports, i + 1)))
  {
    assert Accounted(e, input, runs, reports, i);
    RightIff(input, runs[i].config, ProvenanceAt(runs, reports, i + 1).merged, Merge);
    BareIff(e, input, runs, reports, i + 1);
  }

  /** In an empty job everything is stale. */
  lemma NothingYet(m: Manifest, files: Files, input: nat, c: Config, force: bool)
    requires files == map[]
    ensures StaleStages(m, files, input, c, force) == StaleStages(map[], map[], input, c, force)
  {
    forall s: Stage ensures StaleAtRoot(m, files, input, c, s) && StaleAtRoot(map[], map[], input, c, s) { }
  }

  lemma {:induction false} SameProvenance(runs: seq<Plan>, a: seq<Report>, b: seq<Report>, n: nat)
    requires n <= |runs| && n <= |a| <= |b| && a == b[..|a|]
    ensures ProvenanceAt(runs, a, n) == ProvenanceAt(runs, b, n)
  {
    if n > 0 { SameProvenance(runs, a, b, n - 1); }
  }

  lemma OneMoreReport(e: Engine, input: nat, runs: seq<Plan>, reports: seq<Report>, r: Report)
    requires |reports| < |runs|
    ensures ProvenanceAt(runs, reports + [r], |reports| + 1)
         == After(ProvenanceAt(runs, reports, |reports|), r.executed, runs[|reports|].config.diarization.enabled, r.missed)
    ensures StaleBefore(input, runs, reports + [r], |reports|) == StaleBefore(input, runs, reports, |reports|)
    ensures forall j: nat {:trigger ProvenanceAt(runs, reports, j)} | j <= |reports| ::
              ProvenanceAt(runs, reports + [r], j) == ProvenanceAt(runs, reports, j)
    ensures forall j | 0 <= j < |reports| :: Accounted(e, input, runs, reports + [r], j) <==> Accounted(e, input, runs, reports, j)
  {
    var more, i := reports + [r], |reports|;
    assert reports == more[..i];
    forall j: nat | j <= i ensures ProvenanceAt(runs, more, j) == ProvenanceAt(runs, reports, j) { SameProvenance(runs, reports, more, j); }
    forall j | 0 <= j < i ensures Accounted(e, input, runs, more, j) <==> Accounted(e, input, runs, reports, j) {
      assert StaleBefore(input, runs, more, j) == StaleBefore(input, runs, reports, j);
    }
  }

  /** Repeating a run that returned and lost nothing, with the same configuration and without
      force, executes nothing, whatever its weather otherwise does; only an export without formats
      has nothing to show and is executed again. */
  lemma RepeatExecutesNothing(e: Engine, input: nat, runs: seq<Plan>, reports: seq<Report>, i: nat)
    requires i + 1 < |runs| && i + 1 < |reports|
    requires Accounted(e, input, runs, reports, i) && Accounted(e, input, runs, reports, i + 1)
    requires reports[i].outcome.Returned? && AllLossless(runs[i].weather)
    requires runs[i + 1].config == runs[i].config && !runs[i + 1].force && runs[i + 1].lost == {} && AllLossless(runs[i + 1].weather)
    ensures runs[i].config.output.formats > 0 ==> reports[i + 1].executed == []
    ensures runs[i].config.output.formats == 0 ==> reports[i + 1].executed == [] || reports[i + 1].executed == [Export]
    ensures runs[i].config.output.formats == 0 && reports[i + 1].outcome.Returned? ==> reports[i + 1].executed == [Export]
  {
    var c, m, f := runs[i].config, reports[i].manifest, reports[i].files;
    var stale := StaleBefore(input, runs, reports, i + 1);
    assert f - {} == f;
    NothingStale(m, f, input, c);
    LosslessDue(stale, runs[i + 1].weather);
    OnlyExport(reports[i + 1].executed, stale);
  }

  lemma NothingStale(m: Manifest, f: Files, input: nat, c: Config)
    requires DoneBefore(m, input, c, 5) && PresentBefore(f, 5) && Flagged(m)
    ensures StaleStages(m, f, input, c, false) == if c.output.formats > 0 then {} else {Export}
  {
    forall s: Stage ensures StaleAtRoot(m, f, input, c, s) <==> s.Export? && c.output.formats == 0 {
      assert Rank(s) < 5 && IsDone(m, s, StageHash(input, c, s)) && s in f;
    }
    forall s: Stage, a: Stage | Ancestor(a, s) ensures !a.Export? { DependentsAreDescendants(a, s); }
  }

  lemma {:induction false} OnlyExport(executed: seq<Stage>, stale: set<Stage>)
    requires stale <= {Export} && exists k: nat :: StaleUpTo(executed, stale, k)
    ensures stale == {} ==> executed == []
    ensures executed == [] || executed == [Export]
    ensures StaleUpTo(executed, stale, 5) && stale == {Export} ==> executed == [Export]
  {
    var k: nat :| StaleUpTo(executed, stale, k);
    forall i | 0 <= i < |executed| ensures executed[i] == Export { assert executed[i] in executed; }
    if executed != [] { assert executed[|executed| - 1] == executed[0] == Export; }
    if StaleUpTo(executed, stale, 5) && stale == {Export} { assert Export in executed; }
  }

  /** The hash of a stage changes exactly with the input and with what the configuration says
      about the stage and those before it. */
  lemma HashesTellApart(input: nat, c: Config, other: nat, d: Config)
    ensures StageHash(input, c, Audio) == StageHash(other, d, Audio) <==> input == other
    ensures StageHash(input, c, Asr) == StageHash(other, d, Asr) <==> input == other && c.asr == d.asr
    ensures StageHash(input, c, Diarization) == StageHash(other, d, Diarization) <==> input == other && c.diarization == d.diarization
    ensures StageHash(input, c, Merge) == StageHash(other, d, Merge)
       <==> input == other && c.asr == d.asr && c.diarization == d.diarization && c.alignment == d.alignment
    ensures StageHash(input, c, Export) == StageHash(other, d, Export) <==> input == other && c == d
  {
  }

  /** Word timestamps are left out only with whisper.cpp: when they are turned off, or automatic
      while diarization is off. */
  lemma TimestampsLeftOut(asr: AsrSettings, enabled: bool)
    ensures !WordTimestamps(asr, enabled) <==> asr.whisperCpp && (asr.timestamps.Never? || (asr.timestamps.Auto? && !enabled))
  {
  }

  /** A run in which nothing goes wrong. */
  function Calm(): Stage -> Weather {
    _ => Weather({}, {}, Finishes)
  }

  /** After a calm first run, a second one finds stale what was lost or has another hash. */
  lemma {:induction false} CalmStart(e: Engine, input: nat, c: Config, second: Plan, reports: seq<Report>)
    requires |reports| == 2 && !second.force && Audio !in second.lost
    requires Accounted(e, input, [Plan({}, c, false, Calm()), second], reports, 0)
    ensures var runs, on := [Plan({}, c, false, Calm()), second], c.diarization.enabled;
            && reports[0].outcome.Returned? && Some(reports[0].outcome.result) == FromScratch(e, input, c, Merge)
            && ProvenanceAt(runs, reports, 1) == Provenance(on, Origin(on, false))
            && forall s: Stage {:trigger s in StaleBefore(input, runs, reports, 1)} | Rank(s) < 3 ::
                 s in StaleBefore(input, runs, reports, 1)
                 <==> s in second.lost || StageHash(input, c, s) != StageHash(input, second.config, s)
  {
    var runs, r := [Plan({}, c, false, Calm()), second], reports[0];
    var stale := StaleBefore(input, runs, reports, 0);
    LosslessDue(stale, Calm());
    assert forall s: Stage :: s in stale by {
      forall s: Stage ensures StaleAtRoot(map[], map[], input, c, s) { }
    }
    assert Asr in r.executed && Merge in r.executed && !r.missed;
    MadeIs(e, Origin(c.diarization.enabled, false), input, c);
    assert ProvenanceAt(runs, reports, 1)
        == After(ProvenanceAt(runs, reports, 0), r.executed, c.diarization.enabled, r.missed);
    forall s: Stage | Rank(s) < 3
      ensures s in StaleBefore(input, runs, reports, 1)
              <==> s in second.lost || StageHash(input, c, s) != StageHash(input, second.config, s)
    {
      FoundStale(r.manifest, r.files - second.lost, input, c, second.config, s);
    }
  }

  lemma FoundStale(m: Manifest, f: Files, input: nat, c: Config, d: Config, s: Stage)
    requires DoneBefore(m, input, c, 5) && Audio in f && Rank(s) < 3
    ensures s in StaleStages(m, f, input, d, false) <==> s !in f || StageHash(input, c, s) != StageHash(input, d, s)
  {
    assert IsDone(m, s, StageHash(input, c, s)) && IsDone(m, Audio, StageHash(input, c, Audio)) by {
      assert Rank(s) < 5 && Rank(Audio) < 5;
    }
    forall a ensures Ancestor(a, s) ==> a == Audio { DependentsAreDescendants(a, s); }
    assert !StaleAtRoot(m, f, input, d, Audio);
  }

  /** The result of the second of two runs, by what it executed. */
  lemma SecondResult(input: nat, c: Config, second: Plan, reports: seq<Report>)
    requires |reports| == 2 && !second.force && Audio !in second.lost
    requires forall i | 0 <= i < 2 :: Accounted(TellTale(), input, [Plan({}, c, false, Calm()), second], reports, i)
    requires reports[1].outcome.Returned? && Merge in reports[1].executed
    ensures var d, on := second.config, if Asr in reports[1].executed then second.config.diarization.enabled else c.diarization.enabled;
            Some(reports[1].outcome.result) == FromScratch(TellTale(), input, d, Merge)
            <==> WordTimestamps(d.asr, on) == WordTimestamps(d.asr, d.diarization.enabled) && !(reports[1].missed && d.diarization.enabled)
  {
    var runs := [Plan({}, c, false, Calm()), second];
    CalmStart(TellTale(), input, c, second, reports);
    assert Accounted(TellTale(), input, runs, reports, 1);
    MadeIs(TellTale(), ProvenanceAt(runs, reports, 2).merged, input, second.config);
  }

  /** Switching diarization while the transcript depends on it goes wrong for every such pair of
      configurations: the second run keeps the transcript of the first, although nothing was lost
      and nothing failed. */
  method SwitchedDiarization(input: nat, c: Config, d: Config) returns (first: Outcome, second: Outcome)
    requires c.asr == d.asr && Sensitive(c.asr) && c.diarization.enabled != d.diarization.enabled
    ensures first.Returned? && Some(first.result) == FromScratch(TellTale(), input, c, Merge)
    ensures second.Returned? && Some(second.result) != FromScratch(TellTale(), input, d, Merge)
  {
    var runs := [Plan({}, c, false, Calm()), Plan({}, d, false, Calm())];
    var reports := Session(TellTale(), input, runs, _ => true);
    first, second := reports[0].outcome, reports[1].outcome;
    SwitchKeepsTranscript(input, c, d, reports);
  }

  lemma SwitchKeepsTranscript(input: nat, c: Config, d: Config, reports: seq<Report>)
    requires c.asr == d.asr && Sensitive(c.asr) && c.diarization.enabled != d.diarization.enabled && |reports| == 2
    requires forall i | 0 <= i < 2 ::
               Accounted(TellTale(), input, [Plan({}, c, false, Calm()), Plan({}, d, false, Calm())], reports, i)
    ensures reports[0].outcome.Returned? && Some(reports[0].outcome.result) == FromScratch(TellTale(), input, c, Merge)
    ensures reports[1].outcome.Returned? && Some(reports[1].outcome.result) != FromScratch(TellTale(), input, d, Merge)
  {
    var runs := [Plan({}, c, false, Calm()), Plan({}, d, false, Calm())];
    CalmStart(TellTale(), input, c, runs[1], reports);
    assert Accounted(TellTale(), input, runs, reports, 1);
    var stale := StaleBefore(input, runs, reports, 1);
    LosslessDue(stale, Calm());
    assert StageHash(input, c, Asr) == StageHash(input, d, Asr) && Rank(Asr) < 3;
    assert StageHash(input, c, Diarization) != StageHash(input, d, Diarization) && Rank(Diarization) < 3;
    BelowStale(reports[0].manifest, reports[0].files - {}, input, d);
    SecondResult(input, c, runs[1], reports);
  }

  /** A merge below a stale stage is stale. */
  lemma BelowStale(m: Manifest, f: Files, input: nat, d: Config)
    ensures Diarization in StaleStages(m, f, input, d, false) || Merge !in f ==> Merge in StaleStages(m, f, input, d, false)
  {
    forall a: Stage ensures Ancestor(a, Diarization) ==> Ancestor(a, Merge) {
      DependentsAreDescendants(a, Diarization);
      DependentsAreDescendants(a, Merge);
    }
    DependentsAreDescendants(Diarization, Merge);
  }

  /** Losing the turns after their check goes wrong for every configuration with diarization on,
      when the merge has to be made again. */
  method LostTurns(input: nat, c: Config) returns (first: Outcome, second: Outcome)
    requires c.diarization.enabled
    ensures first.Returned? && Some(first.result) == FromScratch(TellTale(), input, c, Merge)
    ensures second.Returned? && Some(second.result) != FromScratch(TellTale(), input, c, Merge)
  {
    var runs := [Plan({}, c, false, Calm()), Plan({Merge}, c, false, Losing())];
    var reports := Session(TellTale(), input, runs, _ => true);
    first, second := reports[0].outcome, reports[1].outcome;
    LossMergesBare(input, c, reports);
  }

  /** The turns are lost after their check, and nothing else goes wrong. */
  function Losing(): Stage -> Weather {
    s => Weather({}, if s == Diarization then {Diarization} else {}, Finishes)
  }

  lemma LossMergesBare(input: nat, c: Config, reports: seq<Report>)
    requires c.diarization.enabled && |reports| == 2
    requires forall i | 0 <= i < 2 ::
               Accounted(TellTale(), input, [Plan({}, c, false, Calm()), Plan({Merge}, c, false, Losing())], reports, i)
    ensures reports[0].outcome.Returned? && Some(reports[0].outcome.result) == FromScratch(TellTale(), input, c, Merge)
    ensures reports[1].outcome.Returned? && Some(reports[1].outcome.result) != FromScratch(TellTale(), input, c, Merge)
  {
    var runs := [Plan({}, c, false, Calm()), Plan({Merge}, c, false, Losing())];
    CalmStart(TellTale(), input, c, runs[1], reports);
    assert Accounted(TellTale(), input, runs, reports, 1);
    var stale := StaleBefore(input, runs, reports, 1);
    assert Rank(Diarization) < 3 && Diarization !in stale;
    BelowStale(reports[0].manifest, reports[0].files - {Merge}, input, c);
    LosingDue(stale);
    SecondResult(input, c, runs[1], reports);
  }

  lemma LosingDue(stale: set<Stage>)
    ensures Diarization in Due(stale, Losing()) <==> Diarization in stale
    ensures Merge in stale ==> Merge in Due(stale, Losing())
  {
    assert BadAt(stale, Losing(), 1) == stale;
    assert BadAt(stale, Losing(), 2) == stale;
    assert stale <= BadAt(stale, Losing(), 3);
  }

  /** Every stage is listed. */
  lemma AllStages()
    ensures forall s: Stage :: s in STAGES
    ensures STAGES[..|STAGES|] == STAGES
  {
    forall s: Stage ensures s in STAGES {
      match s case Audio => case Asr => case Diarization => case Merge => case Export =>
    }
    assert STAGES[0] == Audio && STAGES[1] == Asr && STAGES[2] == Diarization && STAGES[3] == Merge && STAGES[4] == Export;
  }
}
