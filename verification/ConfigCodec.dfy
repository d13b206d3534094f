/**
 The configuration file (internal/config/config.go, priority.go, cachegate.go): the wire form with its
 omitted and defaulted fields, the configuration in memory, and the two directions between them. Every
 wire field is here; GitHub stands for the block the codec copies through.
 */
module ConfigCodec {
  import opened Basics
  import opened Durations

  // --- The configuration ------------------------------------------------------------------------

  datatype Resources = Resources(cpu: int64, memoryMiB: int64)

  datatype Profile = Profile(id: string, runnerLabel: string, aliases: seq<string>, resources: Resources, cpu: int64, memoryMiB: int64,
                             diskGiB: int64, maxActive: int64, occupancyBudgetSeconds: Option<int64>)

  datatype Target = Target(kind: string, slug: string, maxActive: int64, schedulingClass: string, defaultLinuxProfile: string,
                           runnerLabels: seq<string>)

  datatype Image = Image(baseVM: string, capabilities: seq<string>, runnerVersion: string, tools: seq<string>)

  datatype Linux = Linux(image: Image, vmPrefix: string, maxInstances: int64, capacity: Resources, profiles: seq<Profile>,
                         nestedVirtualization: bool, serialLogDirectory: string)

  datatype MacOS = MacOS(enabled: bool, admissionPolicy: string, mixedPlatformAdmission: bool, mixedProfileCohorts: bool,
                         image: Image, vmPrefix: string, builder: Profile, compact: Profile, rootDiskOptions: string,
                         sharedDirectoryPath: string, nestedVirtualization: bool)

  datatype Executor = Executor(backend: string, image: string, binary: string, kvmProfiles: seq<string>, emulatorSlotsDir: string,
                               holdCommand: seq<string>)

  datatype CacheGate = CacheGate(url: string, publicKey: string, npmRegistry: string)

  datatype Timeouts = Timeouts(gitHub: int64, tart: int64, boot: int64, longestAssignment: int64)

  datatype Guards = Guards(minFreeDiskGiB: int64, minFreeInodePercent: real, minAvailableMemoryMiB: int64, maxSwapUsedMiB: int64,
                           swapOutPagesPerSecond: real, maxLoadAverage: real, minCPUIdlePercent: real,
                           pressureMemoryAccounting: bool, elasticHostEnvelope: bool)

  datatype SessionRecovery = SessionRecovery(maxConsecutiveFailures: int64, failureWindow: int64)
  datatype SessionYield = SessionYield(enabled: bool, blockedFor: int64, healthyFor: int64)
  datatype UpdateDrain = UpdateDrain(enabled: bool, pendingFor: int64, maxWait: int64, cooldown: int64)
  datatype GuestLiveness = GuestLiveness(refusals: int64, window: int64, probeTimeout: int64)
  {
    predicate Enabled() { refusals > 0 && window > 0 && probeTimeout > 0 }
  }

  datatype Match = Match(scope: string, workflowRef: string, jobName: string)
  datatype Tier = Tier(name: string, rules: seq<Match>)
  datatype Priority = Priority(escalateAfter: int64, tiers: seq<Tier>)

  datatype Mode = Off | Stationary | Roaming

  datatype Config<G> = Config(
    pollInterval: int64, reservationAge: int64, hostBudget: Resources, runnerVersionFloor: string, cacheGate: CacheGate,
    guestArch: string, linux: Linux, executor: Executor, macOS: MacOS, gitHub: G, timeouts: Timeouts, guards: Guards,
    sessionRecovery: SessionRecovery, sessionYield: SessionYield, membership: Mode, updateDrain: UpdateDrain,
    guestLiveness: GuestLiveness, targets: seq<Target>, priority: Priority, stateDir: string)

  // --- The wire ----------------------------------------------------------------------------------
  // An omitted scalar is its zero value and an omitted block is None.

  datatype WireProfile = WireProfile(id: string, runnerLabel: string, aliases: seq<string>, cpu: int64, memoryMiB: int64, diskGiB: int64,
                                     maxActive: int64, occupancyBudgetSeconds: Option<int64>)

  datatype WireLinux = WireLinux(image: Image, vmPrefix: string, maxLinuxWhenMacOSIdle: int64, maxLinuxCPU: int64,
                                 maxLinuxMemoryMiB: int64, profiles: seq<WireProfile>, nestedVirtualization: bool,
                                 serialLogDirectory: string)

  datatype WireMacOS = WireMacOS(enabled: bool, admissionPolicy: string, mixedPlatformAdmission: bool, mixedProfileCohorts: bool,
                                 image: Image, vmPrefix: string, builder: WireProfile, compact: Option<WireProfile>,
                                 maestro: Option<WireProfile>, rootDiskOptions: string, sharedDirectoryPath: string,
                                 nestedVirtualization: bool)

  datatype WireTimeouts = WireTimeouts(gitHub: int64, tart: int64, boot: int64, longestAssignment: int64)

  datatype WireGuards = WireGuards(minFreeDiskGiB: int64, minFreeInodePercent: real, minAvailableMemoryMiB: int64,
                                   maxSwapUsedMiB: int64, swapOutPagesPerSecond: Option<real>, maxLoadAverage: real,
                                   minCPUIdlePercent: real, pressureMemoryAccounting: bool, elasticHostEnvelope: bool)

  datatype WireRecovery = WireRecovery(maxIngestFailures: int64, failureWindow: int64)
  datatype WireYield = WireYield(disabled: bool, blockedFor: int64, healthyFor: int64)
  datatype WireDrain = WireDrain(disabled: bool, pendingFor: int64, maxWait: int64, cooldown: int64)
  datatype WireLiveness = WireLiveness(refusals: int64, window: int64, probeTimeout: int64)
  datatype WirePriority = WirePriority(escalateAfter: int64, tiers: seq<Tier>)

  datatype Wire<G> = Wire(
    pollSeconds: int64, reservationAgeSeconds: int64, hostBudget: Option<Resources>, runnerVersionFloor: string,
    cacheGate: Option<CacheGate>, guestArch: string, linux: WireLinux, executor: Option<Executor>, macOSBurst: WireMacOS,
    gitHub: G, timeouts: WireTimeouts, guards: WireGuards, sessionRecovery: WireRecovery, sessionYield: WireYield,
    membership: string, updateDrain: WireDrain, guestLiveness: WireLiveness, targets: seq<Target>,
    priority: Option<WirePriority>)

  const NO_BUDGET := Resources(0, 0)
  const NO_EXECUTOR := Executor("", "", "", [], "", [])
  const NO_GATE := CacheGate("", "", "")
  const SHARED := "shared"
  const EXCLUSIVE := "macos-exclusive"
  const STANDARD := "standard"
  const NO_PROFILE := WireProfile("", "", [], 0, 0, 0, 0, None)

  const WINDOW: int64 := 300 * SECOND
  const BLOCKED_FOR: int64 := 600 * SECOND
  const HEALTHY_FOR: int64 := 120 * SECOND
  const PENDING_FOR: int64 := 1800 * SECOND
  const MAX_WAIT: int64 := 7200 * SECOND
  const COOLDOWN: int64 := 3600 * SECOND
  const LIVENESS_WINDOW: int64 := 90 * SECOND
  const LIVENESS_PROBE: int64 := 5 * SECOND

  predicate Between(d: int64, low: int, high: int) { low * SECOND <= d <= high * SECOND }

  // --- Profiles and targets ---------------------------------------------------------------------

  function Decoded(p: WireProfile): Profile {
    Profile(p.id, p.runnerLabel, p.aliases, Resources(p.cpu, p.memoryMiB), p.cpu, p.memoryMiB, p.diskGiB, p.maxActive,
            p.occupancyBudgetSeconds)
  }

  /** A profile without a resource vector is read from its flat fields. */
  function ResourcesOf(p: Profile): Resources {
    if p.resources.cpu == 0 then Resources(p.cpu, p.memoryMiB) else p.resources
  }

  function Encoded(p: Profile): WireProfile {
    WireProfile(p.id, p.runnerLabel, p.aliases, ResourcesOf(p).cpu, ResourcesOf(p).memoryMiB, p.diskGiB, p.maxActive,
                p.occupancyBudgetSeconds)
  }

  function DecodedAll(ps: seq<WireProfile>): seq<Profile> {
    seq(|ps|, i requires 0 <= i < |ps| => Decoded(ps[i]))
  }

  function EncodedAll(ps: seq<Profile>): seq<WireProfile> {
    seq(|ps|, i requires 0 <= i < |ps| => Encoded(ps[i]))
  }

  function Classed(t: Target): Target { if t.schedulingClass == "" then t.(schedulingClass := STANDARD) else t }

  function ClassedAll(ts: seq<Target>): seq<Target> {
    seq(|ts|, i requires 0 <= i < |ts| => Classed(ts[i]))
  }

  /** One profile has two spellings, and naming both is refused. */
  function DecodedCompact(compact: Option<WireProfile>, maestro: Option<WireProfile>): Option<WireProfile> {
    if compact.Some? && maestro.Some? then None
    else if compact.Some? then compact
    else if maestro.Some? then maestro
    else Some(NO_PROFILE)
  }

  // --- The blocks ---------------------------------------------------------------------------------

  function ParseMode(raw: string): Option<Mode> {
    if raw == "" then Some(Off)
    else if raw == "stationary" then Some(Stationary)
    else if raw == "roaming" then Some(Roaming)
    else None
  }

  function Spelling(mode: Mode): string {
    match mode
    case Off => ""
    case Stationary => "stationary"
    case Roaming => "roaming"
  }

  function DecodedLinux(w: WireLinux): Linux {
    Linux(w.image, w.vmPrefix, w.maxLinuxWhenMacOSIdle, Resources(w.maxLinuxCPU, w.maxLinuxMemoryMiB), DecodedAll(w.profiles),
          w.nestedVirtualization, w.serialLogDirectory)
  }

  function EncodedLinux(l: Linux): WireLinux {
    WireLinux(l.image, l.vmPrefix, l.maxInstances, l.capacity.cpu, l.capacity.memoryMiB, EncodedAll(l.profiles),
              l.nestedVirtualization, l.serialLogDirectory)
  }

  function DecodedMacOS(w: WireMacOS, compact: WireProfile): MacOS {
    MacOS(w.enabled, if w.admissionPolicy == "" then SHARED else w.admissionPolicy, w.mixedPlatformAdmission, w.mixedProfileCohorts,
          w.image, w.vmPrefix, Decoded(w.builder), Decoded(compact), w.rootDiskOptions, w.sharedDirectoryPath,
          w.nestedVirtualization)
  }

  /** Only the exclusive policy is written, the profile is written under its older name, and nested
      virtualization is not written at all. */
  function EncodedMacOS(m: MacOS): WireMacOS {
    WireMacOS(m.enabled, if m.admissionPolicy == EXCLUSIVE then EXCLUSIVE else "", m.mixedPlatformAdmission, m.mixedProfileCohorts,
              m.image, m.vmPrefix, Encoded(m.builder), None, Some(Encoded(m.compact)), m.rootDiskOptions, m.sharedDirectoryPath, false)
  }

  function DecodedTimeouts(w: WireTimeouts): Timeouts {
    Timeouts(SecondsOr(w.gitHub, 15), SecondsOr(w.tart, 45), SecondsOr(w.boot, 180), SecondsOr(w.longestAssignment, 900))
  }

  function EncodedTimeouts(t: Timeouts): Option<WireTimeouts> {
    var g, a, b, l := WholeSeconds(t.gitHub), WholeSeconds(t.tart), WholeSeconds(t.boot), WholeSeconds(t.longestAssignment);
    if g.None? || a.None? || b.None? || l.None? then None else Some(WireTimeouts(g.value, a.value, b.value, l.value))
  }

  function DecodedGuards(w: WireGuards): Guards {
    Guards(w.minFreeDiskGiB, if w.minFreeInodePercent == 0.0 then 5.0 else w.minFreeInodePercent,
           if w.minAvailableMemoryMiB == 0 then 1024 else w.minAvailableMemoryMiB,
           if w.maxSwapUsedMiB == 0 then 2048 else w.maxSwapUsedMiB,
           if w.swapOutPagesPerSecond.None? then 10.0 else w.swapOutPagesPerSecond.value,
           if w.maxLoadAverage == 0.0 then 9.0 else w.maxLoadAverage,
           if w.minCPUIdlePercent == 0.0 then 5.0 else w.minCPUIdlePercent, w.pressureMemoryAccounting, w.elasticHostEnvelope)
  }

  function EncodedGuards(g: Guards): WireGuards {
    WireGuards(g.minFreeDiskGiB, if g.minFreeInodePercent == 5.0 then 0.0 else g.minFreeInodePercent, g.minAvailableMemoryMiB,
               g.maxSwapUsedMiB, if g.swapOutPagesPerSecond == 10.0 then None else Some(g.swapOutPagesPerSecond),
               g.maxLoadAverage, g.minCPUIdlePercent, g.pressureMemoryAccounting, g.elasticHostEnvelope)
  }

  function DecodedRecovery(w: WireRecovery): SessionRecovery {
    SessionRecovery(if w.maxIngestFailures == 0 then 5 else w.maxIngestFailures, Defaulted(w.failureWindow, WINDOW))
  }

  function EncodedRecovery(r: SessionRecovery): Option<WireRecovery> {
    var window := Undefaulted(r.failureWindow, WINDOW);
    if window.None? then None
    else Some(WireRecovery(if r.maxConsecutiveFailures == 5 then 0 else r.maxConsecutiveFailures, window.value))
  }

  function DecodedYield(w: WireYield): SessionYield {
    SessionYield(!w.disabled, Defaulted(w.blockedFor, BLOCKED_FOR), Defaulted(w.healthyFor, HEALTHY_FOR))
  }

  function EncodedYield(y: SessionYield): Option<WireYield> {
    var blocked, healthy := Undefaulted(y.blockedFor, BLOCKED_FOR), Undefaulted(y.healthyFor, HEALTHY_FOR);
    if blocked.None? || healthy.None? then None else Some(WireYield(!y.enabled, blocked.value, healthy.value))
  }

  function DecodedDrain(w: WireDrain): UpdateDrain {
    UpdateDrain(!w.disabled, Defaulted(w.pendingFor, PENDING_FOR), Defaulted(w.maxWait, MAX_WAIT), Defaulted(w.cooldown, COOLDOWN))
  }

  function EncodedDrain(d: UpdateDrain): Option<WireDrain> {
    var p, m, c := Undefaulted(d.pendingFor, PENDING_FOR), Undefaulted(d.maxWait, MAX_WAIT), Undefaulted(d.cooldown, COOLDOWN);
    if p.None? || m.None? || c.None? then None else Some(WireDrain(!d.enabled, p.value, m.value, c.value))
  }

  const NO_LIVENESS := GuestLiveness(0, 0, 0)

  /** A refusal count or a window of -1 turns the probes off. */
  predicate LivenessOff(w: WireLiveness) { w.refusals == -1 || w.window == -1 }

  function DecodedLiveness(w: WireLiveness): GuestLiveness {
    if LivenessOff(w) then NO_LIVENESS
    else GuestLiveness(if w.refusals == 0 then 5 else w.refusals, Defaulted(w.window, LIVENESS_WINDOW),
                       Defaulted(w.probeTimeout, LIVENESS_PROBE))
  }

  function EncodedLiveness(g: GuestLiveness): Option<WireLiveness> {
    if !g.Enabled() then Some(WireLiveness(-1, 0, 0))
    else
      var window, probe := Undefaulted(g.window, LIVENESS_WINDOW), Undefaulted(g.probeTimeout, LIVENESS_PROBE);
      if window.None? || probe.None? then None
      else Some(WireLiveness(if g.refusals == 5 then 0 else g.refusals, window.value, probe.value))
  }

  function DecodedPriority(w: Option<WirePriority>): Priority {
    if w.None? then Priority(0, []) else Priority(Nanos(w.value.escalateAfter), w.value.tiers)
  }

  /** The outer Option is the refusal, the inner one the omitted block. */
  function EncodedPriority(p: Priority): Option<Option<WirePriority>> {
    if p.tiers == [] then Some(None)
    else match WholeSeconds(p.escalateAfter)
         case None => None
         case Some(seconds) => Some(Some(WirePriority(seconds, p.tiers)))
  }

  // --- Validation ---------------------------------------------------------------------------------

  predicate ValidLiveness(g: GuestLiveness) {
    if !g.Enabled() then g == NO_LIVENESS
    else 3 <= g.refusals <= 100 && Between(g.window, 30, 3600) && Between(g.probeTimeout, 1, 60)
  }

  predicate ValidPriority(p: Priority) {
    if p.tiers == [] then p.escalateAfter == 0 else |p.tiers| <= 8 && Between(p.escalateAfter, 60, 86400)
  }

  predicate ValidGuards(g: Guards) {
    && g.minFreeDiskGiB > 0 && g.minAvailableMemoryMiB >= 0 && g.maxSwapUsedMiB >= 0 && g.maxLoadAverage >= 0.0
    && 0.0 <= g.minCPUIdlePercent <= 100.0 && 0.0 < g.minFreeInodePercent <= 100.0 && g.swapOutPagesPerSecond > 0.0
  }

  /** The times, counts and guards of a configuration are within their bounds. */
  predicate WithinBounds<G>(c: Config<G>) {
    && c.pollInterval > 0 && c.reservationAge > 0
    && ValidPriority(c.priority)
    && c.timeouts.gitHub > 0 && c.timeouts.tart > 0 && c.timeouts.boot > 0 && Between(c.timeouts.longestAssignment, 60, 3600)
    && 1 <= c.sessionRecovery.maxConsecutiveFailures <= 100 && Between(c.sessionRecovery.failureWindow, 30, 3600)
    && Between(c.sessionYield.blockedFor, 30, 3600) && Between(c.sessionYield.healthyFor, 30, 3600)
    && Between(c.updateDrain.pendingFor, 60, 86400) && Between(c.updateDrain.maxWait, 60, 86400)
    && Between(c.updateDrain.cooldown, 60, 86400)
    && ValidLiveness(c.guestLiveness) && ValidGuards(c.guards)
  }

  /** The checks on what the codec itself reads or leaves out; rest is every other check of the
      configuration, on names, capacities, labels, scopes and URLs. */
  predicate Valid<G>(c: Config<G>, rest: Config<G> -> bool) {
    && WithinBounds(c)
    && !c.macOS.nestedVirtualization
    && (c.macOS.admissionPolicy == "" || c.macOS.admissionPolicy == SHARED || c.macOS.admissionPolicy == EXCLUSIVE)
    && (c.executor.backend == "" ==> c.executor == NO_EXECUTOR)
    && rest(c)
  }

  // --- Decode and Encode ------------------------------------------------------------------------

  function Project<G>(w: Wire<G>, compact: WireProfile, mode: Mode): Config<G> {
    Config(Nanos(w.pollSeconds), Nanos(w.reservationAgeSeconds), if w.hostBudget.None? then NO_BUDGET else w.hostBudget.value,
           w.runnerVersionFloor, if w.cacheGate.None? then NO_GATE else w.cacheGate.value, w.guestArch, DecodedLinux(w.linux),
           if w.executor.None? then NO_EXECUTOR else w.executor.value, DecodedMacOS(w.macOSBurst, compact), w.gitHub,
           DecodedTimeouts(w.timeouts), DecodedGuards(w.guards), DecodedRecovery(w.sessionRecovery), DecodedYield(w.sessionYield),
           mode, DecodedDrain(w.updateDrain), DecodedLiveness(w.guestLiveness), ClassedAll(w.targets), DecodedPriority(w.priority), "")
  }

  function Decode<G>(w: Wire<G>, rest: Config<G> -> bool): Option<Config<G>> {
    var compact, mode := DecodedCompact(w.macOSBurst.compact, w.macOSBurst.maestro), ParseMode(w.membership);
    if compact.None? || mode.None? then None
    else
      var c := Project(w, compact.value, mode.value);
      if Valid(c, rest) then Some(c) else None
  }

  function Encode<G>(c: Config<G>, rest: Config<G> -> bool): Option<Wire<G>> {
    var poll, age := WholeSeconds(c.pollInterval), WholeSeconds(c.reservationAge);
    var timeouts, recovery, yielding := EncodedTimeouts(c.timeouts), EncodedRecovery(c.sessionRecovery), EncodedYield(c.sessionYield);
    var drain, priority, liveness := EncodedDrain(c.updateDrain), EncodedPriority(c.priority), EncodedLiveness(c.guestLiveness);
    if !Valid(c, rest) || poll.None? || age.None? || timeouts.None? || recovery.None? || yielding.None? || drain.None?
       || priority.None? || liveness.None?
    then None
    else Some(Wire(poll.value, age.value, if c.hostBudget == NO_BUDGET then None else Some(c.hostBudget), c.runnerVersionFloor,
                   if c.cacheGate == NO_GATE then None else Some(c.cacheGate), c.guestArch, EncodedLinux(c.linux),
                   if c.executor.backend == "" then None else Some(c.executor), EncodedMacOS(c.macOS), c.gitHub,
                   timeouts.value, EncodedGuards(c.guards), recovery.value, yielding.value, Spelling(c.membership), drain.value,
                   liveness.value, ClassedAll(c.targets), priority.value))
  }

  // --- Round trips, block by block ---------------------------------------------------------------

  /** The shape decoding leaves behind, which any change to the GitHub block keeps: nothing that a written
      file would read back as its default, and every profile's flat fields equal to its vector. */
  predicate Flat(p: Profile) { p.resources == Resources(p.cpu, p.memoryMiB) }

  predicate Normal<G>(c: Config<G>) {
    && (forall p | p in c.linux.profiles :: Flat(p)) && Flat(c.macOS.builder) && Flat(c.macOS.compact)
    && (forall t | t in c.targets :: t.schedulingClass != "")
    && c.macOS.admissionPolicy != ""
    && c.guards.minAvailableMemoryMiB != 0 && c.guards.maxSwapUsedMiB != 0
    && c.guards.maxLoadAverage != 0.0 && c.guards.minCPUIdlePercent != 0.0
  }

  lemma LinuxReturns(l: Linux)
    requires forall p | p in l.profiles :: Flat(p)
    ensures DecodedLinux(EncodedLinux(l)) == l
  {
    var back := DecodedAll(EncodedAll(l.profiles));
    forall i | 0 <= i < |back|
      ensures back[i] == l.profiles[i]
    {
      assert l.profiles[i] in l.profiles;
    }
    assert back == l.profiles;
  }

  lemma MacOSReturns(m: MacOS)
    requires Flat(m.builder) && Flat(m.compact) && !m.nestedVirtualization
    requires m.admissionPolicy == SHARED || m.admissionPolicy == EXCLUSIVE
    ensures var w := EncodedMacOS(m);
            DecodedCompact(w.compact, w.maestro).Some? && DecodedMacOS(w, DecodedCompact(w.compact, w.maestro).value) == m
  {
    assert EXCLUSIVE != "";
  }

  lemma TargetsReturn(ts: seq<Target>)
    requires forall t | t in ts :: t.schedulingClass != ""
    ensures ClassedAll(ClassedAll(ts)) == ts
  {
    assert ClassedAll(ts) == ts;
  }

  predicate Whole(d: int64) { d % SECOND == 0 }

  lemma TimeoutsReturn(t: Timeouts)
    requires t.gitHub != 0 && t.tart != 0 && t.boot != 0 && t.longestAssignment != 0
    ensures EncodedTimeouts(t).Some? <==> Whole(t.gitHub) && Whole(t.tart) && Whole(t.boot) && Whole(t.longestAssignment)
    ensures EncodedTimeouts(t).Some? ==> DecodedTimeouts(EncodedTimeouts(t).value) == t
  {
    TimeoutReturns(t.gitHub, 15);
    TimeoutReturns(t.tart, 45);
    TimeoutReturns(t.boot, 180);
    TimeoutReturns(t.longestAssignment, 900);
  }

  lemma BoundsReturn(r: SessionRecovery, y: SessionYield, d: UpdateDrain)
    requires r.maxConsecutiveFailures != 0 && r.failureWindow != 0 && y.blockedFor != 0 && y.healthyFor != 0
    requires d.pendingFor != 0 && d.maxWait != 0 && d.cooldown != 0
    ensures EncodedRecovery(r).Some? <==> Whole(r.failureWindow)
    ensures EncodedRecovery(r).Some? ==> DecodedRecovery(EncodedRecovery(r).value) == r
    ensures EncodedYield(y).Some? <==> Whole(y.blockedFor) && Whole(y.healthyFor)
    ensures EncodedYield(y).Some? ==> DecodedYield(EncodedYield(y).value) == y
    ensures EncodedDrain(d).Some? <==> Whole(d.pendingFor) && Whole(d.maxWait) && Whole(d.cooldown)
    ensures EncodedDrain(d).Some? ==> DecodedDrain(EncodedDrain(d).value) == d
  {
    BoundReturns(r.failureWindow, WINDOW);
    BoundReturns(y.blockedFor, BLOCKED_FOR);
    BoundReturns(y.healthyFor, HEALTHY_FOR);
    BoundReturns(d.pendingFor, PENDING_FOR);
    BoundReturns(d.maxWait, MAX_WAIT);
    BoundReturns(d.cooldown, COOLDOWN);
  }

  /** Probes that are off stay off: the sentinel is written, and no bound in range looks like it. */
  lemma LivenessReturns(g: GuestLiveness)
    requires ValidLiveness(g)
    ensures EncodedLiveness(g).Some? <==> Whole(g.window) && Whole(g.probeTimeout)
    ensures EncodedLiveness(g).Some? ==> DecodedLiveness(EncodedLiveness(g).value) == g
  {
    if g.Enabled() {
      BoundReturns(g.window, LIVENESS_WINDOW);
      BoundReturns(g.probeTimeout, LIVENESS_PROBE);
    }
  }

  lemma PriorityReturns(p: Priority)
    requires ValidPriority(p)
    ensures EncodedPriority(p).Some? <==> Whole(p.escalateAfter)
    ensures EncodedPriority(p).Some? ==> DecodedPriority(EncodedPriority(p).value) == p
  {
    SecondsReturn(p.escalateAfter);
  }

  // --- The whole file -----------------------------------------------------------------------------

  predicate WholeTimeouts(t: Timeouts) { Whole(t.gitHub) && Whole(t.tart) && Whole(t.boot) && Whole(t.longestAssignment) }
  predicate WholeYield(y: SessionYield) { Whole(y.blockedFor) && Whole(y.healthyFor) }
  predicate WholeDrain(d: UpdateDrain) { Whole(d.pendingFor) && Whole(d.maxWait) && Whole(d.cooldown) }
  predicate WholeLiveness(g: GuestLiveness) { Whole(g.window) && Whole(g.probeTimeout) }

  /** Every duration of the configuration is whole seconds. */
  predicate AllWhole<G>(c: Config<G>) {
    && Whole(c.pollInterval) && Whole(c.reservationAge) && WholeTimeouts(c.timeouts) && Whole(c.sessionRecovery.failureWindow)
    && WholeYield(c.sessionYield) && WholeDrain(c.updateDrain) && WholeLiveness(c.guestLiveness) && Whole(c.priority.escalateAfter)
  }

  lemma WrittenExactly<G>(c: Config<G>, rest: Config<G> -> bool)
    requires Valid(c, rest)
    ensures Encode(c, rest).Some? <==> AllWhole(c)
  {
    TimeoutsReturn(c.timeouts);
    BoundsReturn(c.sessionRecovery, c.sessionYield, c.updateDrain);
    LivenessReturns(c.guestLiveness);
    PriorityReturns(c.priority);
  }

  lemma PassiveBlocksReturn<G>(c: Config<G>, rest: Config<G> -> bool)
    requires Normal(c) && Encode(c, rest).Some?
    ensures var w := Encode(c, rest).value;
            && DecodedLinux(w.linux) == c.linux && ClassedAll(w.targets) == c.targets && DecodedGuards(w.guards) == c.guards
            && DecodedCompact(w.macOSBurst.compact, w.macOSBurst.maestro).Some?
            && DecodedMacOS(w.macOSBurst, DecodedCompact(w.macOSBurst.compact, w.macOSBurst.maestro).value) == c.macOS
            && ParseMode(w.membership) == Some(c.membership)
            && (if w.hostBudget.None? then NO_BUDGET else w.hostBudget.value) == c.hostBudget
            && (if w.cacheGate.None? then NO_GATE else w.cacheGate.value) == c.cacheGate
            && (if w.executor.None? then NO_EXECUTOR else w.executor.value) == c.executor
  {
    LinuxReturns(c.linux);
    MacOSReturns(c.macOS);
    TargetsReturn(c.targets);
  }

  lemma TimedBlocksReturn<G>(c: Config<G>, rest: Config<G> -> bool)
    requires Encode(c, rest).Some?
    ensures var w := Encode(c, rest).value;
            && Nanos(w.pollSeconds) == c.pollInterval && Nanos(w.reservationAgeSeconds) == c.reservationAge
            && DecodedTimeouts(w.timeouts) == c.timeouts && DecodedRecovery(w.sessionRecovery) == c.sessionRecovery
            && DecodedYield(w.sessionYield) == c.sessionYield && DecodedDrain(w.updateDrain) == c.updateDrain
            && DecodedLiveness(w.guestLiveness) == c.guestLiveness && DecodedPriority(w.priority) == c.priority
  {
    SecondsReturn(c.pollInterval);
    SecondsReturn(c.reservationAge);
    TimeoutsReturn(c.timeouts);
    BoundsReturn(c.sessionRecovery, c.sessionYield, c.updateDrain);
    LivenessReturns(c.guestLiveness);
    PriorityReturns(c.priority);
  }

  /** A decoded configuration, whatever has since become of its GitHub block, is written exactly when its
      durations are whole seconds, and then reads back as itself but for where the file was found. */
  lemma EncodedReturns<G>(c: Config<G>, rest: Config<G> -> bool)
    requires Normal(c) && Valid(c, rest) && rest(c.(stateDir := ""))
    ensures Encode(c, rest).Some? <==> AllWhole(c)
    ensures Encode(c, rest).Some? ==> Decode(Encode(c, rest).value, rest) == Some(c.(stateDir := ""))
  {
    WrittenExactly(c, rest);
    if Encode(c, rest).Some? {
      PassiveBlocksReturn(c, rest);
      TimedBlocksReturn(c, rest);
    }
  }

  /** What decoding accepts is normal and valid, and knows of no state directory. */
  lemma DecodedIsNormal<G>(w: Wire<G>, rest: Config<G> -> bool)
    requires Decode(w, rest).Some?
    ensures var c := Decode(w, rest).value; Normal(c) && Valid(c, rest) && c.stateDir == ""
  {
  }

  predicate LosslessTimeouts(w: WireTimeouts) {
    Lossless(w.gitHub) && Lossless(w.tart) && Lossless(w.boot) && Lossless(w.longestAssignment)
  }
  predicate LosslessYield(w: WireYield) { Lossless(w.blockedFor) && Lossless(w.healthyFor) }
  predicate LosslessDrain(w: WireDrain) { Lossless(w.pendingFor) && Lossless(w.maxWait) && Lossless(w.cooldown) }
  predicate LosslessLiveness(w: WireLiveness) { LivenessOff(w) || (Lossless(w.window) && Lossless(w.probeTimeout)) }
  predicate LosslessPriority(w: Option<WirePriority>) { w.Some? ==> Lossless(w.value.escalateAfter) }

  /** Every seconds field the file states comes out of the product as whole seconds. */
  predicate StatesWholeSeconds<G>(w: Wire<G>) {
    && Lossless(w.pollSeconds) && Lossless(w.reservationAgeSeconds) && LosslessTimeouts(w.timeouts)
    && Lossless(w.sessionRecovery.failureWindow) && LosslessYield(w.sessionYield) && LosslessDrain(w.updateDrain)
    && LosslessLiveness(w.guestLiveness) && LosslessPriority(w.priority)
  }

  lemma BoundIsWhole(seconds: int64, default: int64)
    requires Whole(default)
    ensures Whole(Defaulted(seconds, default)) <==> Lossless(seconds)
  {
    LosslessExactly(seconds);
  }

  lemma TimeoutIsWhole(seconds: int64, fallback: int64)
    requires 0 <= fallback <= 900
    ensures Whole(SecondsOr(seconds, fallback)) <==> Lossless(seconds)
  {
    LosslessExactly(seconds);
    LosslessExactly(fallback);
    SmallIsLossless(fallback);
    SmallIsLossless(0);
  }

  lemma TimeoutsAreWhole(w: WireTimeouts)
    ensures WholeTimeouts(DecodedTimeouts(w)) <==> LosslessTimeouts(w)
  {
    TimeoutIsWhole(w.gitHub, 15);
    TimeoutIsWhole(w.tart, 45);
    TimeoutIsWhole(w.boot, 180);
    TimeoutIsWhole(w.longestAssignment, 900);
  }

  lemma YieldIsWhole(w: WireYield)
    ensures WholeYield(DecodedYield(w)) <==> LosslessYield(w)
  {
    BoundIsWhole(w.blockedFor, BLOCKED_FOR);
    BoundIsWhole(w.healthyFor, HEALTHY_FOR);
  }

  lemma PendingIsWhole(w: WireDrain)
    ensures Whole(DecodedDrain(w).pendingFor) <==> Lossless(w.pendingFor)
  {
    BoundIsWhole(w.pendingFor, PENDING_FOR);
  }

  lemma MaxWaitIsWhole(w: WireDrain)
    ensures Whole(DecodedDrain(w).maxWait) <==> Lossless(w.maxWait)
  {
    BoundIsWhole(w.maxWait, MAX_WAIT);
  }

  lemma CooldownIsWhole(w: WireDrain)
    ensures Whole(DecodedDrain(w).cooldown) <==> Lossless(w.cooldown)
  {
    BoundIsWhole(w.cooldown, COOLDOWN);
  }

  lemma DrainIsWhole(w: WireDrain)
    ensures WholeDrain(DecodedDrain(w)) <==> LosslessDrain(w)
  {
    PendingIsWhole(w);
    MaxWaitIsWhole(w);
    CooldownIsWhole(w);
  }

  lemma LivenessIsWhole(w: WireLiveness)
    ensures WholeLiveness(DecodedLiveness(w)) <==> LosslessLiveness(w)
  {
    BoundIsWhole(w.window, LIVENESS_WINDOW);
    BoundIsWhole(w.probeTimeout, LIVENESS_PROBE);
  }

  lemma PriorityIsWhole(w: Option<WirePriority>)
    ensures Whole(DecodedPriority(w).escalateAfter) <==> LosslessPriority(w)
  {
    if w.Some? { LosslessExactly(w.value.escalateAfter); }
  }

  lemma WholeExactly<G>(w: Wire<G>, compact: WireProfile, mode: Mode)
    ensures AllWhole(Project(w, compact, mode)) <==> StatesWholeSeconds(w)
  {
    LosslessExactly(w.pollSeconds);
    LosslessExactly(w.reservationAgeSeconds);
    BoundIsWhole(w.sessionRecovery.failureWindow, WINDOW);
    TimeoutsAreWhole(w.timeouts);
    YieldIsWhole(w.sessionYield);
    DrainIsWhole(w.updateDrain);
    LivenessIsWhole(w.guestLiveness);
    PriorityIsWhole(w.priority);
  }

  /** An accepted file is written again exactly when none of its seconds fields has wrapped into a part of
      a second, and what is written decodes to the same configuration. */
  lemma FileReturns<G>(w: Wire<G>, rest: Config<G> -> bool)
    requires Decode(w, rest).Some?
    ensures var again := Encode(Decode(w, rest).value, rest);
            && (again.Some? <==> StatesWholeSeconds(w))
            && (again.Some? ==> Decode(again.value, rest) == Decode(w, rest))
  {
    DecodedIsNormal(w, rest);
    var c := Decode(w, rest).value;
    assert c.(stateDir := "") == c;
    EncodedReturns(c, rest);
    WholeExactly(w, DecodedCompact(w.macOSBurst.compact, w.macOSBurst.maestro).value, ParseMode(w.membership).value);
  }

  /** Writing is stable: a written file that is read and written again does not change. */
  lemma WrittenFileIsStable<G>(w: Wire<G>, rest: Config<G> -> bool)
    requires Decode(w, rest).Some? && StatesWholeSeconds(w)
    ensures var again := Encode(Decode(w, rest).value, rest);
            again.Some? && Decode(again.value, rest).Some? && Encode(Decode(again.value, rest).value, rest) == again
  {
    FileReturns(w, rest);
  }

  // --- What a file means ---------------------------------------------------------------------------

  predicate Fits(seconds: int64) { -9_223_372_036 <= seconds <= 9_223_372_036 }

  /** No seconds field is large enough to wrap. */
  predicate AllFit<G>(w: Wire<G>) {
    && Fits(w.pollSeconds) && Fits(w.reservationAgeSeconds)
    && Fits(w.timeouts.gitHub) && Fits(w.timeouts.tart) && Fits(w.timeouts.boot) && Fits(w.timeouts.longestAssignment)
    && Fits(w.sessionRecovery.failureWindow) && Fits(w.sessionYield.blockedFor) && Fits(w.sessionYield.healthyFor)
    && Fits(w.updateDrain.pendingFor) && Fits(w.updateDrain.maxWait) && Fits(w.updateDrain.cooldown)
    && Fits(w.guestLiveness.window) && Fits(w.guestLiveness.probeTimeout)
    && (w.priority.Some? ==> Fits(w.priority.value.escalateAfter))
  }

  /** The stated number of seconds, or the shipped one where none is stated. */
  function Stated(seconds: int64, shipped: int): int { (if seconds == 0 then shipped else seconds) * SECOND }

  /** Every duration of a file that does not wrap is the stated one, or the one a shipped default
      configuration has. */
  lemma FileMeansWhatItStates<G>(w: Wire<G>, compact: WireProfile, mode: Mode)
    requires AllFit(w)
    ensures var c := Project(w, compact, mode);
            && c.pollInterval == w.pollSeconds * SECOND && c.reservationAge == w.reservationAgeSeconds * SECOND
            && c.timeouts.gitHub == Stated(w.timeouts.gitHub, 15) && c.timeouts.tart == Stated(w.timeouts.tart, 45)
            && c.timeouts.boot == Stated(w.timeouts.boot, 180)
            && c.timeouts.longestAssignment == Stated(w.timeouts.longestAssignment, 900)
            && c.sessionRecovery.failureWindow == Stated(w.sessionRecovery.failureWindow, 300)
            && c.sessionYield.blockedFor == Stated(w.sessionYield.blockedFor, 600)
            && c.sessionYield.healthyFor == Stated(w.sessionYield.healthyFor, 120)
            && c.updateDrain.pendingFor == Stated(w.updateDrain.pendingFor, 1800)
            && c.updateDrain.maxWait == Stated(w.updateDrain.maxWait, 7200)
            && c.updateDrain.cooldown == Stated(w.updateDrain.cooldown, 3600)
            && (w.guestLiveness.refusals != -1 && w.guestLiveness.window != -1 ==>
                  && c.guestLiveness.window == Stated(w.guestLiveness.window, 90)
                  && c.guestLiveness.probeTimeout == Stated(w.guestLiveness.probeTimeout, 5))
            && c.priority.escalateAfter == if w.priority.None? then 0 else w.priority.value.escalateAfter * SECOND
  {
    PlainProduct();
  }

  /** Every capacity, guard, count and switch of a file is the stated one, or the shipped default where the
      file states none. */
  lemma LimitsMeanWhatTheyState<G>(w: Wire<G>, compact: WireProfile, mode: Mode)
    ensures var c := Project(w, compact, mode);
            && c.linux.maxInstances == w.linux.maxLinuxWhenMacOSIdle
            && c.linux.capacity.cpu == w.linux.maxLinuxCPU && c.linux.capacity.memoryMiB == w.linux.maxLinuxMemoryMiB
            && (w.hostBudget.None? ==> c.hostBudget.cpu == c.hostBudget.memoryMiB == 0)
            && (w.hostBudget.Some? ==> c.hostBudget.cpu == w.hostBudget.value.cpu && c.hostBudget.memoryMiB == w.hostBudget.value.memoryMiB)
            && c.guards.minFreeDiskGiB == w.guards.minFreeDiskGiB
            && c.guards.minFreeInodePercent == (if w.guards.minFreeInodePercent == 0.0 then 5.0 else w.guards.minFreeInodePercent)
            && c.guards.minAvailableMemoryMiB == (if w.guards.minAvailableMemoryMiB == 0 then 1024 else w.guards.minAvailableMemoryMiB)
            && c.guards.maxSwapUsedMiB == (if w.guards.maxSwapUsedMiB == 0 then 2048 else w.guards.maxSwapUsedMiB)
            && c.guards.swapOutPagesPerSecond == (if w.guards.swapOutPagesPerSecond.None? then 10.0 else w.guards.swapOutPagesPerSecond.value)
            && c.guards.maxLoadAverage == (if w.guards.maxLoadAverage == 0.0 then 9.0 else w.guards.maxLoadAverage)
            && c.guards.minCPUIdlePercent == (if w.guards.minCPUIdlePercent == 0.0 then 5.0 else w.guards.minCPUIdlePercent)
            && c.guards.pressureMemoryAccounting == w.guards.pressureMemoryAccounting
            && c.guards.elasticHostEnvelope == w.guards.elasticHostEnvelope
            && c.sessionRecovery.maxConsecutiveFailures == (if w.sessionRecovery.maxIngestFailures == 0 then 5 else w.sessionRecovery.maxIngestFailures)
            && c.sessionYield.enabled == !w.sessionYield.disabled && c.updateDrain.enabled == !w.updateDrain.disabled
            && (w.guestLiveness.refusals == -1 || w.guestLiveness.window == -1 ==> c.guestLiveness == GuestLiveness(0, 0, 0))
            && (w.guestLiveness.refusals != -1 && w.guestLiveness.window != -1 ==>
                  c.guestLiveness.refusals == if w.guestLiveness.refusals == 0 then 5 else w.guestLiveness.refusals)
  {
  }

  /** Every profile has the stated sizes, in its vector as in its flat fields. */
  predicate ProfileStates(p: Profile, w: WireProfile) {
    && p.id == w.id && p.runnerLabel == w.runnerLabel && p.aliases == w.aliases
    && p.cpu == p.resources.cpu == w.cpu && p.memoryMiB == p.resources.memoryMiB == w.memoryMiB
    && p.diskGiB == w.diskGiB && p.maxActive == w.maxActive && p.occupancyBudgetSeconds == w.occupancyBudgetSeconds
  }

  /** What an accepted file states by name: the images, prefixes and paths of the two platforms, the profiles
      in order, the compact one under whichever of its two names is used, the targets, the tiers and the mode. */
  lemma NamesMeanWhatTheyState<G>(w: Wire<G>, rest: Config<G> -> bool)
    requires Decode(w, rest).Some?
    ensures var c, mac := Decode(w, rest).value, w.macOSBurst;
            && c.runnerVersionFloor == w.runnerVersionFloor && c.guestArch == w.guestArch && c.gitHub == w.gitHub
            && c.linux.image == w.linux.image && c.linux.vmPrefix == w.linux.vmPrefix
            && c.linux.serialLogDirectory == w.linux.serialLogDirectory && c.linux.nestedVirtualization == w.linux.nestedVirtualization
            && |c.linux.profiles| == |w.linux.profiles|
            && (forall i | 0 <= i < |w.linux.profiles| :: ProfileStates(c.linux.profiles[i], w.linux.profiles[i]))
            && c.macOS.enabled == mac.enabled && c.macOS.image == mac.image && c.macOS.vmPrefix == mac.vmPrefix
            && c.macOS.admissionPolicy == (if mac.admissionPolicy == "" then "shared" else mac.admissionPolicy)
            && c.macOS.mixedPlatformAdmission == mac.mixedPlatformAdmission && c.macOS.mixedProfileCohorts == mac.mixedProfileCohorts
            && c.macOS.rootDiskOptions == mac.rootDiskOptions && c.macOS.sharedDirectoryPath == mac.sharedDirectoryPath
            && ProfileStates(c.macOS.builder, mac.builder)
            && !(mac.compact.Some? && mac.maestro.Some?)
            && (mac.compact.Some? ==> ProfileStates(c.macOS.compact, mac.compact.value))
            && (mac.maestro.Some? ==> ProfileStates(c.macOS.compact, mac.maestro.value))
            && (c.membership == Off <==> w.membership == "") && (c.membership == Stationary <==> w.membership == "stationary")
            && (c.membership == Roaming <==> w.membership == "roaming")
            && |c.targets| == |w.targets|
            && (forall i | 0 <= i < |w.targets| ::
                  c.targets[i] == w.targets[i].(schedulingClass := if w.targets[i].schedulingClass == "" then "standard" else w.targets[i].schedulingClass))
            && c.priority.tiers == (if w.priority.None? then [] else w.priority.value.tiers)
            && (w.cacheGate.Some? ==> c.cacheGate == w.cacheGate.value) && (w.executor.Some? ==> c.executor == w.executor.value)
  {
    DistinctModes();
  }

  lemma DistinctModes()
    ensures "" != "stationary" && "" != "roaming" && "stationary" != "roaming"
  {
    assert "stationary"[0] != "roaming"[0];
  }

  /** A number of seconds the file leaves to its default or states within these bounds. */
  predicate DefaultOr(seconds: int64, low: int, high: int) { seconds == 0 || low <= seconds <= high }

  predicate StatesLiveness(w: WireLiveness) {
    || w.refusals == -1 || w.window == -1
    || (DefaultOr(w.refusals, 3, 100) && DefaultOr(w.window, 30, 3600) && DefaultOr(w.probeTimeout, 1, 60))
  }

  predicate StatesBounds<G>(w: Wire<G>) {
    && w.pollSeconds > 0 && w.reservationAgeSeconds > 0
    && w.timeouts.gitHub >= 0 && w.timeouts.tart >= 0 && w.timeouts.boot >= 0 && DefaultOr(w.timeouts.longestAssignment, 60, 3600)
    && DefaultOr(w.sessionRecovery.maxIngestFailures, 1, 100) && DefaultOr(w.sessionRecovery.failureWindow, 30, 3600)
    && DefaultOr(w.sessionYield.blockedFor, 30, 3600) && DefaultOr(w.sessionYield.healthyFor, 30, 3600)
    && DefaultOr(w.updateDrain.pendingFor, 60, 86400) && DefaultOr(w.updateDrain.maxWait, 60, 86400)
    && DefaultOr(w.updateDrain.cooldown, 60, 86400)
    && StatesLiveness(w.guestLiveness)
    && (w.priority.Some? ==>
          if w.priority.value.tiers == [] then w.priority.value.escalateAfter == 0
          else |w.priority.value.tiers| <= 8 && 60 <= w.priority.value.escalateAfter <= 86400)
  }

  predicate StatesGuards(g: WireGuards) {
    && g.minFreeDiskGiB > 0 && 0.0 <= g.minFreeInodePercent <= 100.0 && g.minAvailableMemoryMiB >= 0 && g.maxSwapUsedMiB >= 0
    && (g.swapOutPagesPerSecond.Some? ==> g.swapOutPagesPerSecond.value > 0.0)
    && g.maxLoadAverage >= 0.0 && 0.0 <= g.minCPUIdlePercent <= 100.0
  }

  lemma LivenessAccepted(w: WireLiveness)
    requires Fits(w.window) && Fits(w.probeTimeout)
    ensures ValidLiveness(DecodedLiveness(w)) <==> StatesLiveness(w)
  {
    PlainProduct();
  }

  lemma PriorityAccepted(w: Option<WirePriority>)
    requires w.Some? ==> Fits(w.value.escalateAfter)
    ensures ValidPriority(DecodedPriority(w)) <==>
            (w.Some? ==>
               if w.value.tiers == [] then w.value.escalateAfter == 0
               else |w.value.tiers| <= 8 && 60 <= w.value.escalateAfter <= 86400)
  {
    PlainProduct();
  }

  lemma BoundAccepted(seconds: int64, default: int64, low: int, high: int)
    requires Fits(seconds) && 0 < low && Between(default, low, high)
    ensures Between(Defaulted(seconds, default), low, high) <==> DefaultOr(seconds, low, high)
  {
    SmallIsLossless(seconds);
  }

  lemma TimeoutAccepted(seconds: int64, fallback: int64)
    requires Fits(seconds) && 60 <= fallback <= 3600
    ensures Between(SecondsOr(seconds, fallback), 60, 3600) <==> DefaultOr(seconds, 60, 3600)
  {
    SmallIsLossless(seconds);
    SmallIsLossless(fallback);
  }

  lemma PositiveTimeout(seconds: int64, fallback: int64)
    requires Fits(seconds) && 0 < fallback <= 900
    ensures SecondsOr(seconds, fallback) > 0 <==> seconds >= 0
  {
    SmallIsLossless(seconds);
    SmallIsLossless(fallback);
  }

  lemma TimesAccepted<G>(w: Wire<G>, compact: WireProfile, mode: Mode)
    requires AllFit(w)
    ensures WithinBounds(Project(w, compact, mode)) <==> StatesBounds(w) && StatesGuards(w.guards)
  {
    SmallIsLossless(w.pollSeconds);
    SmallIsLossless(w.reservationAgeSeconds);
    PositiveTimeout(w.timeouts.gitHub, 15);
    PositiveTimeout(w.timeouts.tart, 45);
    PositiveTimeout(w.timeouts.boot, 180);
    TimeoutAccepted(w.timeouts.longestAssignment, 900);
    BoundAccepted(w.sessionRecovery.failureWindow, WINDOW, 30, 3600);
    BoundAccepted(w.sessionYield.blockedFor, BLOCKED_FOR, 30, 3600);
    BoundAccepted(w.sessionYield.healthyFor, HEALTHY_FOR, 30, 3600);
    BoundAccepted(w.updateDrain.pendingFor, PENDING_FOR, 60, 86400);
    BoundAccepted(w.updateDrain.maxWait, MAX_WAIT, 60, 86400);
    BoundAccepted(w.updateDrain.cooldown, COOLDOWN, 60, 86400);
    LivenessAccepted(w.guestLiveness);
    PriorityAccepted(w.priority);
  }

  /** Which files are accepted, on what they state: no default is out of its own bounds, so a file that does
      not wrap is accepted exactly when everything it does state is within them. */
  lemma AcceptedExactly<G>(w: Wire<G>, rest: Config<G> -> bool)
    requires AllFit(w)
    ensures var mac := w.macOSBurst;
            Decode(w, rest).Some? <==>
            && StatesBounds(w) && StatesGuards(w.guards)
            && !(mac.compact.Some? && mac.maestro.Some?) && !mac.nestedVirtualization
            && (mac.admissionPolicy == "" || mac.admissionPolicy == "shared" || mac.admissionPolicy == "macos-exclusive")
            && (w.membership == "" || w.membership == "stationary" || w.membership == "roaming")
            && (w.executor.Some? && w.executor.value.backend == "" ==> w.executor.value == NO_EXECUTOR)
            && rest(Project(w, if mac.compact.Some? then mac.compact.value else if mac.maestro.Some? then mac.maestro.value else NO_PROFILE,
                            if w.membership == "" then Off else if w.membership == "stationary" then Stationary else Roaming))
  {
    var compact, mode := DecodedCompact(w.macOSBurst.compact, w.macOSBurst.maestro), ParseMode(w.membership);
    if compact.Some? && mode.Some? {
      TimesAccepted(w, compact.value, mode.value);
    }
  }

  lemma PlainProduct()
    ensures forall s: int64 | Fits(s) :: Nanos(s) == s * SECOND
  {
    forall s: int64 | Fits(s)
      ensures Nanos(s) == s * SECOND
    {
      SmallIsLossless(s);
    }
  }

  /** A file for a node with one Linux profile that states little but its poll interval. */
  function Overflowing<G>(gitHub: G): Wire<G> {
    Wire(18446744074, 300, None, "", None, "",
         WireLinux(Image("linux-runner-base", [], "", []), "gha-linux", 4, 8, 16384,
                   [WireProfile("small", "linux-small", [], 1, 2048, 50, 0, None)], false, ""),
         None, WireMacOS(false, "", false, false, Image("", [], "", []), "", NO_PROFILE, None, None, "", "", false), gitHub,
         WireTimeouts(0, 0, 0, 0), WireGuards(60, 0.0, 0, 0, None, 0.0, 0.0, false, false), WireRecovery(0, 0),
         WireYield(false, 0, 0), "", WireDrain(false, 0, 0, 0), WireLiveness(0, 0, 0), [], None)
  }

  /** The failing case: its 18446744074 seconds wrap to 290448384 nanoseconds, which is positive and
      accepted, and is not whole seconds, so the accepted file cannot be written back. */
  lemma OverflowIsNotWritten<G>(gitHub: G)
    ensures var accepts := (c: Config<G>) => true;
            var c := Decode(Overflowing(gitHub), accepts);
            c.Some? && c.value.pollInterval == 290448384 && Encode(c.value, accepts) == None
  {
    var w := Overflowing(gitHub);
    PlainProduct();
    assert Overflows(w.pollSeconds) == 1;
    assert Nanos(w.pollSeconds) == 290448384;
    var c := Project(w, NO_PROFILE, Off);
    assert c.reservationAge == 300 * SECOND;
    assert c.timeouts == Timeouts(15 * SECOND, 45 * SECOND, 180 * SECOND, 900 * SECOND);
    assert c.guestLiveness == GuestLiveness(5, LIVENESS_WINDOW, LIVENESS_PROBE);
    assert Valid(c, (c: Config<G>) => true);
  }
}
