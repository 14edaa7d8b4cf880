/** The certificate reloader (tls.go:77-180).

    `ReloadStep` is one call of reload, given what the call saw of the outside
    world; the class performs it on its fields. A transition system then lets
    another process rewrite the files between the two stats and the two reads of
    a call, and the theorems speak of every run of it. The mutex admits one call
    at a time, so a run has one call in progress at most. */
module CertReloader {
  import opened Json

  /** Instants; a file time is compared for equality only. */
  type Time = int

  /** The zero value of a Go time, which no recorded stat stands for. */
  const ZERO_TIME: Time := 0

  /** The contents of the two files. A certificate and a key load as a pair
      exactly when the key belongs to the certificate. */
  datatype CertText = CertText(der: string, publicKey: int, notAfter: Time)
  datatype KeyText = KeyText(publicKey: int)

  datatype Certificate = Certificate(leaf: CertText, key: KeyText)

  predicate Matching(c: Certificate) {
    c.leaf.publicKey == c.key.publicKey
  }

  datatype Read<T> = Bytes(content: T) | Failed(reason: string)

  /** What one call saw: the modification times, the contents, the clock. */
  datatype Observation = Observation(
    certStat: Option<Time>, keyStat: Option<Time>,
    certRead: Read<CertText>, keyRead: Read<KeyText>, now: Time)

  datatype Loaded = Pair(cert: Certificate) | LoadError(text: string)

  /** tls.go:167-180: the certificate file is read first. */
  function LoadKeyPair(certRead: Read<CertText>, keyRead: Read<KeyText>): Loaded {
    match (certRead, keyRead)
    case (Failed(reason), _) => LoadError(reason)
    case (_, Failed(reason)) => LoadError(reason)
    case (Bytes(c), Bytes(k)) =>
      if Matching(Certificate(c, k)) then Pair(Certificate(c, k)) else LoadError("private key does not match")
  }

  datatype State = State(cert: Option<Certificate>, certMod: Time, keyMod: Time, lastFailure: string)

  const EMPTY_STATE: State := State(None, ZERO_TIME, ZERO_TIME, "")

  datatype Outcome = Serve(cert: Certificate) | Fail(err: string)

  function ExpiredLine(err: string, notAfter: Time): string {
    err + "; the previous certificate expired " + SignedDecimal(notAfter) + ".\n"
  }

  function FallbackLine(err: string, notAfter: Time): string {
    err + "; using the previous certificate, which expires " + SignedDecimal(notAfter) + ".\n"
  }

  function LoadedLine(notAfter: Time): string {
    "Loaded certificate, which expires " + SignedDecimal(notAfter) + ".\n"
  }

  /** The cached certificate is returned without a read. */
  predicate Hit(s: State, certStat: Option<Time>, keyStat: Option<Time>) {
    s.cert.Some? && certStat == Some(s.certMod) && keyStat == Some(s.keyMod)
  }

  /** A failure line, or nothing when it repeats the last one. */
  function Unrepeated(s: State, line: string): (State, string) {
    if line == s.lastFailure then (s, "") else (s.(lastFailure := line), line)
  }

  /** One call: the new state, what it returns, and the line it logs if any. */
  function ReloadStep(s: State, o: Observation): (State, Outcome, string) {
    if Hit(s, o.certStat, o.keyStat) then (s, Serve(s.cert.value), "")
    else match LoadKeyPair(o.certRead, o.keyRead)
      case LoadError(err) =>
        if s.cert == None then (s, Fail(err), "")
        else
          var notAfter := s.cert.value.leaf.notAfter;
          if notAfter <= o.now then
            var (t, line) := Unrepeated(s, ExpiredLine(err, notAfter));
            (t, Fail(err), line)
          else
            var (t, line) := Unrepeated(s, FallbackLine(err, notAfter));
            (t, Serve(s.cert.value), line)
      case Pair(c) =>
        var line := if s.cert == None || s.cert.value.leaf.der != c.leaf.der then LoadedLine(c.leaf.notAfter) else "";
        var seen := o.certStat.Some? && o.keyStat.Some?;
        (State(Some(c), if seen then o.certStat.value else s.certMod, if seen then o.keyStat.value else s.keyMod, ""),
         Serve(c), line)
  }

  // ----- What a call promises, case by case

  /** Both files are as they were when the cached certificate was recorded. */
  predicate Unchanged(s: State, certStat: Option<Time>, keyStat: Option<Time>) {
    s.cert.Some? && certStat == Some(s.certMod) && keyStat == Some(s.keyMod)
  }

  /** Both files were read and the key belongs to the certificate. */
  predicate Loads(certRead: Read<CertText>, keyRead: Read<KeyText>) {
    certRead.Bytes? && keyRead.Bytes? && certRead.content.publicKey == keyRead.content.publicKey
  }

  /** The first thing that went wrong. */
  function Cause(certRead: Read<CertText>, keyRead: Read<KeyText>): string {
    if certRead.Failed? then certRead.reason
    else if keyRead.Failed? then keyRead.reason
    else "private key does not match"
  }

  predicate Unexpired(s: State, now: Time) {
    s.cert.Some? && now < s.cert.value.leaf.notAfter
  }

  /** The line that a failed load is worth, if there is a cached certificate. */
  function FailureText(s: State, err: string, now: Time): string
    requires s.cert.Some?
  {
    var notAfter := SignedDecimal(s.cert.value.leaf.notAfter);
    if now < s.cert.value.leaf.notAfter then err + "; using the previous certificate, which expires " + notAfter + ".\n"
    else err + "; the previous certificate expired " + notAfter + ".\n"
  }

  /** After a call that finds the files unchanged, nothing is different and the
      cached certificate is returned. */
  predicate AnswersUnchanged(s: State, t: State, result: Outcome, message: string) {
    s.cert.Some? && t == s && result == Serve(s.cert.value) && message == ""
  }

  /** After a load that succeeds, the new pair is cached and returned, under the
      times of the stats if both succeeded; a new certificate is announced. */
  predicate AnswersLoaded(s: State, o: Observation, t: State, result: Outcome, message: string)
    requires Loads(o.certRead, o.keyRead)
  {
    var c := Certificate(o.certRead.content, o.keyRead.content);
    && result == Serve(c) && t.cert == Some(c) && t.lastFailure == ""
    && (if o.certStat.Some? && o.keyStat.Some? then t.certMod == o.certStat.value && t.keyMod == o.keyStat.value
        else t.certMod == s.certMod && t.keyMod == s.keyMod)
    && message == if s.cert.Some? && s.cert.value.leaf.der == c.leaf.der then ""
                  else "Loaded certificate, which expires " + SignedDecimal(c.leaf.notAfter) + ".\n"
  }

  /** After a load that fails, the cache is as before. Its certificate is returned
      exactly while there is one that is unexpired, and otherwise the cause. With a
      cached certificate a line is logged unless it repeats the last one. */
  predicate AnswersFailed(s: State, o: Observation, t: State, result: Outcome, message: string) {
    var err := Cause(o.certRead, o.keyRead);
    && t.cert == s.cert && t.certMod == s.certMod && t.keyMod == s.keyMod
    && result == (if Unexpired(s, o.now) then Serve(s.cert.value) else Fail(err))
    && if s.cert == None then t.lastFailure == s.lastFailure && message == ""
       else
         && t.lastFailure == FailureText(s, err, o.now)
         && message == if FailureText(s, err, o.now) == s.lastFailure then "" else FailureText(s, err, o.now)
  }

  /** The answer of one call to what it saw. */
  predicate Answers(s: State, o: Observation, t: State, result: Outcome, message: string) {
    if Unchanged(s, o.certStat, o.keyStat) then AnswersUnchanged(s, t, result, message)
    else if Loads(o.certRead, o.keyRead) then AnswersLoaded(s, o, t, result, message)
    else AnswersFailed(s, o, t, result, message)
  }

  lemma StepAnswers(s: State, o: Observation)
    ensures var (t, result, message) := ReloadStep(s, o); Answers(s, o, t, result, message)
  {
  }

  // ----- The reloader as an object

  class Reloader {
    var cert: Option<Certificate>
    var certMod: Time
    var keyMod: Time
    var lastFailure: string
    var log: seq<string>

    ghost function Abstract(): State
      reads this
    {
      State(cert, certMod, keyMod, lastFailure)
    }

    constructor ()
      ensures Abstract() == EMPTY_STATE && log == []
    {
      cert, certMod, keyMod, lastFailure, log := None, ZERO_TIME, ZERO_TIME, "", [];
    }

    /** tls.go:159-165 */
    method NewFailure(message: string) returns (line: string)
      modifies this`lastFailure
      ensures (Abstract(), line) == Unrepeated(old(Abstract()), message)
    {
      if message == lastFailure {
        return "";
      }
      lastFailure := message;
      return message;
    }

    /** tls.go:127-157 */
    method Reload(o: Observation) returns (result: Outcome, message: string)
      modifies this
      ensures (Abstract(), result, message) == ReloadStep(old(Abstract()), o)
      ensures Answers(old(Abstract()), o, Abstract(), result, message)
      ensures log == old(log)
    {
      StepAnswers(Abstract(), o);
      var statOK := o.certStat.Some? && o.keyStat.Some?;
      if statOK && cert.Some? && o.certStat.value == certMod && o.keyStat.value == keyMod {
        return Serve(cert.value), "";
      }
      match LoadKeyPair(o.certRead, o.keyRead) {
        case LoadError(err) =>
          if cert == None {
            return Fail(err), "";
          }
          var notAfter := cert.value.leaf.notAfter;
          if !(o.now < notAfter) {
            message := NewFailure(ExpiredLine(err, notAfter));
            return Fail(err), message;
          }
          message := NewFailure(FallbackLine(err, notAfter));
          return Serve(cert.value), message;
        case Pair(c) =>
          message := "";
          if cert == None || cert.value.leaf.der != c.leaf.der {
            message := LoadedLine(c.leaf.notAfter);
          }
          lastFailure := "";
          cert := Some(c);
          if statOK {
            certMod := o.certStat.value;
            keyMod := o.keyStat.value;
          }
          return Serve(c), message;
      }
    }

    /** tls.go:116-125: the message, if there is one, goes to the log. */
    method CertificateCall(o: Observation) returns (result: Outcome)
      modifies this
      ensures var (t, r, line) := ReloadStep(old(Abstract()), o);
              Abstract() == t && result == r && log == old(log) + if line == "" then [] else [line]
    {
      var message;
      result, message := Reload(o);
      if message != "" {
        log := log + [message];
      }
    }

    /** tls.go:108-114: a peer never sees the cause of a failure. */
    method HandshakeCertificate(o: Observation) returns (served: Option<Certificate>)
      modifies this
      ensures Abstract() == ReloadStep(old(Abstract()), o).0
      ensures served == match ReloadStep(old(Abstract()), o).1 case Serve(c) => Some(c) case Fail(_) => None
    {
      var result := CertificateCall(o);
      match result {
        case Serve(c) => served := Some(c);
        case Fail(_) => served := None;
      }
    }
  }

  /** tls.go:90-96: there is a reloader only if the first call succeeds. */
  method NewCertReloader(o: Observation) returns (r: Option<Reloader>)
    ensures r.Some? <==> LoadKeyPair(o.certRead, o.keyRead).Pair?
    ensures r.Some? ==> fresh(r.value) && r.value.Abstract() == ReloadStep(EMPTY_STATE, o).0
    ensures r.Some? ==> r.value.cert == Some(LoadKeyPair(o.certRead, o.keyRead).cert)
  {
    var reloader := new Reloader();
    var result := reloader.CertificateCall(o);
    r := if result.Serve? then Some(reloader) else None;
  }

  // ----- Files that change while a call runs

  datatype File<T> = File(content: T, mtime: Time)

  /** `certTimes` and `keyTimes` are the modification times that the file has had;
      the zero time counts as used. */
  datatype Disk = Disk(
    cert: Option<File<CertText>>, key: Option<File<KeyText>>, certTimes: set<Time>, keyTimes: set<Time>)

  datatype Progress =
    | Idle
    | CertStatted(certStat: Option<Time>)
    | KeyStatted(certStat: Option<Time>, keyStat: Option<Time>)
    | CertRead(certStat: Option<Time>, keyStat: Option<Time>, certRead: Read<CertText>)
    | KeyRead(certStat: Option<Time>, keyStat: Option<Time>, certRead: Read<CertText>, keyRead: Read<KeyText>)

  /** What the runs are judged by: successful loads, logged failure lines, and
      results, with the clock and whether a load had failed. */
  datatype Event = Load(cert: Certificate) | Failure(line: string) | Return(result: Outcome, now: Time, failed: bool)

  datatype System = System(disk: Disk, now: Time, reloader: State, progress: Progress, trace: seq<Event>)

  datatype Step =
    | WriteCert(cert: CertText, mtime: Time)
    | WriteKey(key: KeyText, mtime: Time)
    | RemoveCert
    | RemoveKey
    | Tick(later: nat)
    | StatCert(ok: bool)
    | StatKey(ok: bool)
    | ReadCert(ok: bool, reason: string)
    | ReadKey(ok: bool, reason: string)
    | Finish

  predicate Initial(s: System) {
    && s.reloader == EMPTY_STATE && s.progress == Idle && s.trace == []
    && s.disk.certTimes == {ZERO_TIME} + (if s.disk.cert.Some? then {s.disk.cert.value.mtime} else {})
    && s.disk.keyTimes == {ZERO_TIME} + (if s.disk.key.Some? then {s.disk.key.value.mtime} else {})
  }

  predicate Enabled(s: System, step: Step) {
    match step
    case StatCert(_) => s.progress == Idle
    case StatKey(_) => s.progress.CertStatted?
    case ReadCert(_, _) => s.progress.KeyStatted? && !Hit(s.reloader, s.progress.certStat, s.progress.keyStat)
    case ReadKey(_, _) => s.progress.CertRead?
    case Finish =>
      s.progress.KeyRead? ||
      (s.progress.KeyStatted? && Hit(s.reloader, s.progress.certStat, s.progress.keyStat))
    case _ => true
  }

  /** A write gives the file a modification time it never had. */
  predicate Fresh(s: System, step: Step) {
    match step
    case WriteCert(_, mtime) => mtime !in s.disk.certTimes
    case WriteKey(_, mtime) => mtime !in s.disk.keyTimes
    case _ => true
  }

  function StatOf<T>(f: Option<File<T>>, ok: bool): Option<Time> {
    if ok && f.Some? then Some(f.value.mtime) else None
  }

  function ReadOf<T>(f: Option<File<T>>, ok: bool, reason: string): Read<T> {
    if ok && f.Some? then Bytes(f.value.content) else Failed(reason)
  }

  function Seen(s: System): Observation
    requires s.progress.KeyRead? || s.progress.KeyStatted?
  {
    match s.progress
    case KeyRead(a, b, c, d) => Observation(a, b, c, d, s.now)
    case KeyStatted(a, b) => Observation(a, b, Failed(""), Failed(""), s.now)
  }

  /** The events of one finished call. */
  function EventsOf(s: State, o: Observation): seq<Event> {
    var (t, result, line) := ReloadStep(s, o);
    var loaded := LoadKeyPair(o.certRead, o.keyRead);
    if Hit(s, o.certStat, o.keyStat) then [Return(result, o.now, false)]
    else match loaded
      case Pair(c) => [Load(c), Return(result, o.now, false)]
      case LoadError(_) => (if line == "" then [] else [Failure(line)]) + [Return(result, o.now, true)]
  }

  function Apply(s: System, step: Step): System
    requires Enabled(s, step)
  {
    match step
    case WriteCert(c, mtime) =>
      s.(disk := s.disk.(cert := Some(File(c, mtime)), certTimes := s.disk.certTimes + {mtime}))
    case WriteKey(k, mtime) =>
      s.(disk := s.disk.(key := Some(File(k, mtime)), keyTimes := s.disk.keyTimes + {mtime}))
    case RemoveCert => s.(disk := s.disk.(cert := None))
    case RemoveKey => s.(disk := s.disk.(key := None))
    case Tick(later) => s.(now := s.now + later)
    case StatCert(ok) => s.(progress := CertStatted(StatOf(s.disk.cert, ok)))
    case StatKey(ok) => s.(progress := KeyStatted(s.progress.certStat, StatOf(s.disk.key, ok)))
    case ReadCert(ok, reason) =>
      s.(progress := CertRead(s.progress.certStat, s.progress.keyStat, ReadOf(s.disk.cert, ok, reason)))
    case ReadKey(ok, reason) =>
      s.(progress := KeyRead(s.progress.certStat, s.progress.keyStat, s.progress.certRead,
                             ReadOf(s.disk.key, ok, reason)))
    case Finish =>
      s.(reloader := ReloadStep(s.reloader, Seen(s)).0, progress := Idle,
         trace := s.trace + EventsOf(s.reloader, Seen(s)))
  }

  /** A run: every step is enabled, and every write uses a new time. */
  predicate Run(states: seq<System>, steps: seq<Step>) {
    && |states| == |steps| + 1
    && Initial(states[0])
    && forall i | 0 <= i < |steps| ::
         Enabled(states[i], steps[i]) && Fresh(states[i], steps[i]) && states[i + 1] == Apply(states[i], steps[i])
  }

  // ----- The cache agrees with the disk

  function DiskPair(d: Disk): Certificate
    requires d.cert.Some? && d.key.Some?
  {
    Certificate(d.cert.value.content, d.key.value.content)
  }

  /** If both recorded times are the current ones, the cache is the pair on disk. */
  predicate Agrees(s: System) {
    s.reloader.cert.Some? && s.disk.cert.Some? && s.disk.key.Some? &&
    s.disk.cert.value.mtime == s.reloader.certMod && s.disk.key.value.mtime == s.reloader.keyMod
    ==> s.reloader.cert.value == DiskPair(s.disk)
  }

  /** A time the file once had that is its time now goes with that content. */
  predicate StillThere<T(==)>(f: Option<File<T>>, time: Time, content: T) {
    f.Some? && f.value.mtime == time ==> f.value.content == content
  }

  predicate CertReadAgrees(s: System, certStat: Option<Time>, certRead: Read<CertText>) {
    certRead.Bytes? ==>
      && StillThere(s.disk.cert, s.reloader.certMod, certRead.content)
      && (certStat.Some? ==> StillThere(s.disk.cert, certStat.value, certRead.content))
  }

  predicate KeyReadAgrees(s: System, keyStat: Option<Time>, keyRead: Read<KeyText>) {
    keyRead.Bytes? ==>
      && StillThere(s.disk.key, s.reloader.keyMod, keyRead.content)
      && (keyStat.Some? ==> StillThere(s.disk.key, keyStat.value, keyRead.content))
  }

  /** Times that the files and the reloader hold have been used. */
  predicate TimesUsed(s: System) {
    && (s.disk.cert.Some? ==> s.disk.cert.value.mtime in s.disk.certTimes)
    && (s.disk.key.Some? ==> s.disk.key.value.mtime in s.disk.keyTimes)
    && s.reloader.certMod in s.disk.certTimes && s.reloader.keyMod in s.disk.keyTimes
    && (!s.progress.Idle? && s.progress.certStat.Some? ==> s.progress.certStat.value in s.disk.certTimes)
    && (!s.progress.Idle? && !s.progress.CertStatted? && s.progress.keyStat.Some? ==>
          s.progress.keyStat.value in s.disk.keyTimes)
  }

  predicate Inv(s: System) {
    && Agrees(s) && TimesUsed(s)
    && (s.reloader.cert.Some? ==> Matching(s.reloader.cert.value))
    && (s.progress.CertRead? || s.progress.KeyRead? ==> CertReadAgrees(s, s.progress.certStat, s.progress.certRead))
    && (s.progress.KeyRead? ==> KeyReadAgrees(s, s.progress.keyStat, s.progress.keyRead))
  }

  lemma InvStep(s: System, step: Step)
    requires Inv(s) && Enabled(s, step) && Fresh(s, step)
    ensures Inv(Apply(s, step))
  {
  }

  lemma {:induction false} InvHolds(states: seq<System>, steps: seq<Step>, i: nat)
    requires Run(states, steps) && i < |states|
    ensures Inv(states[i])
  {
    if i > 0 {
      InvHolds(states, steps, i - 1);
      InvStep(states[i - 1], steps[i - 1]);
    }
  }

  /** In every state of every run, times that match mean a cache that matches. */
  lemma CacheAgrees(states: seq<System>, steps: seq<Step>, i: nat)
    requires Run(states, steps) && i < |states|
    ensures Agrees(states[i])
  {
    InvHolds(states, steps, i);
  }

  // ----- Once the disk is quiet

  /** A step that leaves the files alone and does not fail to read them; a stat
      may still fail. */
  predicate Quiet(step: Step) {
    match step
    case WriteCert(_, _) => false
    case WriteKey(_, _) => false
    case RemoveCert => false
    case RemoveKey => false
    case ReadCert(ok, _) => ok
    case ReadKey(ok, _) => ok
    case _ => true
  }

  /** What the call in progress has seen is what is on disk. */
  predicate SeesDisk(s: System)
    requires s.disk.cert.Some? && s.disk.key.Some?
  {
    var p, d := s.progress, s.disk;
    && (!p.Idle? ==> p.certStat == None || p.certStat == Some(d.cert.value.mtime))
    && (!p.Idle? && !p.CertStatted? ==> p.keyStat == None || p.keyStat == Some(d.key.value.mtime))
    && (p.CertRead? || p.KeyRead? ==> p.certRead == Bytes(d.cert.value.content))
    && (p.KeyRead? ==> p.keyRead == Bytes(d.key.value.content))
  }

  lemma QuietStep(s: System, step: Step)
    requires Inv(s) && Enabled(s, step) && Quiet(step)
    requires s.disk.cert.Some? && s.disk.key.Some? && Matching(DiskPair(s.disk)) && SeesDisk(s)
    ensures Apply(s, step).disk == s.disk && SeesDisk(Apply(s, step))
    ensures step.Finish? ==>
              && Apply(s, step).reloader.cert == Some(DiskPair(s.disk))
              && Apply(s, step).trace != []
              && Apply(s, step).trace[|Apply(s, step).trace| - 1] == Return(Serve(DiskPair(s.disk)), s.now, false)
  {
    if step.Finish? {
      var o := Seen(s);
      if !Hit(s.reloader, o.certStat, o.keyStat) {
        assert LoadKeyPair(o.certRead, o.keyRead) == Pair(DiskPair(s.disk));
      }
    }
  }

  lemma {:induction false} QuietSegment(states: seq<System>, steps: seq<Step>, i: nat, j: nat)
    requires Run(states, steps) && i <= j < |states|
    requires states[i].progress == Idle
    requires states[i].disk.cert.Some? && states[i].disk.key.Some? && Matching(DiskPair(states[i].disk))
    requires forall k | i <= k < j :: Quiet(steps[k])
    ensures states[j].disk == states[i].disk && SeesDisk(states[j])
  {
    if i < j {
      QuietSegment(states, steps, i, j - 1);
      InvHolds(states, steps, j - 1);
      QuietStep(states[j - 1], steps[j - 1]);
    }
  }

  /** Once the disk is quiet with a matching pair, every call that starts and
      finishes returns that pair and caches it, whatever went before and whether
      or not its stats succeed. */
  lemma QuietCallReturnsDisk(states: seq<System>, steps: seq<Step>, i: nat, j: nat)
    requires Run(states, steps) && i <= j < |steps| && steps[j] == Finish
    requires states[i].progress == Idle
    requires states[i].disk.cert.Some? && states[i].disk.key.Some? && Matching(DiskPair(states[i].disk))
    requires forall k | i <= k < j :: Quiet(steps[k])
    ensures states[j + 1].reloader.cert == Some(DiskPair(states[i].disk))
    ensures var trace := states[j + 1].trace;
            trace != [] && trace[|trace| - 1] == Return(Serve(DiskPair(states[i].disk)), states[j].now, false)
  {
    QuietSegment(states, steps, i, j);
    InvHolds(states, steps, j);
    QuietStep(states[j], steps[j]);
  }

  // ----- Safety of what is returned and logged

  /** The last logged failure line since the last successful load. */
  function LastFailure(trace: seq<Event>): string {
    if trace == [] then ""
    else match trace[|trace| - 1]
      case Failure(line) => line
      case Load(_) => ""
      case Return(_, _, _) => LastFailure(trace[..|trace| - 1])
  }

  /** What every event of a trace obeys, given the events before it. */
  predicate GoodEvent(before: seq<Event>, e: Event) {
    match e
    case Load(c) => Matching(c)
    case Failure(line) => line != "" && line != LastFailure(before)
    case Return(Serve(c), now, failed) => Load(c) in before && (failed ==> now < c.leaf.notAfter)
    case Return(Fail(_), _, failed) => failed
  }

  predicate GoodTrace(trace: seq<Event>) {
    forall k | 0 <= k < |trace| :: GoodEvent(trace[..k], trace[k])
  }

  lemma GoodTraceSnoc(trace: seq<Event>, e: Event)
    requires GoodTrace(trace) && GoodEvent(trace, e)
    ensures GoodTrace(trace + [e])
    ensures LastFailure(trace + [e]) == match e
              case Failure(line) => line
              case Load(_) => ""
              case Return(_, _, _) => LastFailure(trace)
  {
    var t := trace + [e];
    assert t[..|trace|] == trace;
    forall k | 0 <= k < |t|
      ensures GoodEvent(t[..k], t[k])
    {
      if k < |trace| {
        assert t[..k] == trace[..k];
      }
    }
  }

  predicate TraceInv(s: System) {
    && GoodTrace(s.trace)
    && s.reloader.lastFailure == LastFailure(s.trace)
    && (s.reloader.cert.Some? ==> Load(s.reloader.cert.value) in s.trace)
  }

  lemma TraceInvStep(s: System, step: Step)
    requires TraceInv(s) && Enabled(s, step)
    ensures TraceInv(Apply(s, step))
    ensures s.reloader.cert.Some? ==> Apply(s, step).reloader.cert.Some?
  {
    if step.Finish? {
      var o := Seen(s);
      var (t, result, line) := ReloadStep(s.reloader, o);
      var loaded := LoadKeyPair(o.certRead, o.keyRead);
      if Hit(s.reloader, o.certStat, o.keyStat) {
        GoodTraceSnoc(s.trace, Return(result, o.now, false));
      } else if loaded.Pair? {
        GoodTraceSnoc(s.trace, Load(loaded.cert));
        GoodTraceSnoc(s.trace + [Load(loaded.cert)], Return(result, o.now, false));
        assert s.trace + [Load(loaded.cert)] + [Return(result, o.now, false)] ==
               s.trace + [Load(loaded.cert), Return(result, o.now, false)];
      } else {
        FailedLoad(s.reloader, o);
        FailureEvents(s.trace, line, Return(result, o.now, true));
      }
    }
  }

  /** A failed load keeps the cache, serves it only while it is unexpired, and
      logs at most one line, which is new. */
  lemma FailedLoad(s: State, o: Observation)
    requires !Hit(s, o.certStat, o.keyStat) && LoadKeyPair(o.certRead, o.keyRead).LoadError?
    ensures var (t, result, line) := ReloadStep(s, o);
            && t == s.(lastFailure := if line == "" then s.lastFailure else line)
            && (line != "" ==> line != s.lastFailure)
            && (result.Serve? ==> s.cert == Some(result.cert) && o.now < result.cert.leaf.notAfter)
  {
  }

  /** The events of a failed load keep the trace good. */
  lemma FailureEvents(trace: seq<Event>, line: string, end: Event)
    requires GoodTrace(trace) && end.Return? && end.failed
    requires line != "" ==> line != LastFailure(trace)
    requires end.result.Serve? ==> Load(end.result.cert) in trace && end.now < end.result.cert.leaf.notAfter
    ensures var more := trace + ((if line == "" then [] else [Failure(line)]) + [end]);
            GoodTrace(more) && LastFailure(more) == if line == "" then LastFailure(trace) else line
  {
    if line == "" {
      GoodTraceSnoc(trace, end);
      assert trace + ([] + [end]) == trace + [end];
    } else {
      GoodTraceSnoc(trace, Failure(line));
      GoodTraceSnoc(trace + [Failure(line)], end);
      assert trace + ([Failure(line)] + [end]) == trace + [Failure(line)] + [end];
    }
  }

  lemma {:induction false} TraceInvHolds(states: seq<System>, steps: seq<Step>, i: nat)
    requires Run(states, steps) && i < |states|
    ensures TraceInv(states[i])
  {
    if i > 0 {
      TraceInvHolds(states, steps, i - 1);
      TraceInvStep(states[i - 1], steps[i - 1]);
    }
  }

  /** What a finished call adds to the trace, and what it leaves in the cache. */
  ghost predicate Finished(s: System, t: System)
    requires s.progress.KeyRead? || s.progress.KeyStatted?
  {
    var o, r := Seen(s), s.reloader;
    if Unchanged(r, o.certStat, o.keyStat) then
      && t.reloader == r
      && t.trace == s.trace + [Return(Serve(r.cert.value), s.now, false)]
    else if Loads(o.certRead, o.keyRead) then
      var c := Certificate(o.certRead.content, o.keyRead.content);
      && t.reloader.cert == Some(c)
      && t.trace == s.trace + [Load(c), Return(Serve(c), s.now, false)]
    else
      var err := Cause(o.certRead, o.keyRead);
      var returned := Return(if Unexpired(r, s.now) then Serve(r.cert.value) else Fail(err), s.now, true);
      && t.reloader.cert == r.cert
      && t.trace == s.trace +
                    if r.cert.Some? && FailureText(r, err, s.now) != LastFailure(s.trace)
                    then [Failure(FailureText(r, err, s.now)), returned] else [returned]
  }

  lemma EventsFinished(s: State, o: Observation)
    ensures EventsOf(s, o) ==
            if Unchanged(s, o.certStat, o.keyStat) then [Return(Serve(s.cert.value), o.now, false)]
            else if Loads(o.certRead, o.keyRead) then
              var c := Certificate(o.certRead.content, o.keyRead.content);
              [Load(c), Return(Serve(c), o.now, false)]
            else
              var err := Cause(o.certRead, o.keyRead);
              var returned := Return(if Unexpired(s, o.now) then Serve(s.cert.value) else Fail(err), o.now, true);
              if s.cert.Some? && FailureText(s, err, o.now) != s.lastFailure
              then [Failure(FailureText(s, err, o.now)), returned] else [returned]
  {
    StepAnswers(s, o);
    if s.cert.Some? {
      assert FailureText(s, Cause(o.certRead, o.keyRead), o.now) != "";
    }
  }

  /** In every run, each call that finishes does what `Finished` says: unchanged
      files give the cached certificate, a load that succeeds gives the new pair,
      and one that fails gives the cached certificate if and only if there is one
      that is unexpired, and otherwise the cause; a failure line is logged if and
      only if it differs from the last one since the last load. */
  lemma CallsFinish(states: seq<System>, steps: seq<Step>, i: nat)
    requires Run(states, steps) && i < |steps| && steps[i] == Finish
    ensures Finished(states[i], states[i + 1])
  {
    var s := states[i];
    TraceInvHolds(states, steps, i);
    EventsFinished(s.reloader, Seen(s));
    StepAnswers(s.reloader, Seen(s));
  }

  /** After a load that failed, the cached certificate is returned if and only if
      there is one and it has not expired, and otherwise the cause. */
  lemma FailedLoadServesCache(states: seq<System>, steps: seq<Step>, i: nat)
    requires Run(states, steps) && i < |steps| && steps[i] == Finish && states[i].progress.KeyRead?
    requires !Loads(states[i].progress.certRead, states[i].progress.keyRead)
    requires !Unchanged(states[i].reloader, states[i].progress.certStat, states[i].progress.keyStat)
    ensures var trace, cached, now := states[i + 1].trace, states[i].reloader.cert, states[i].now;
            && trace != []
            && trace[|trace| - 1] ==
               Return(if cached.Some? && now < cached.value.leaf.notAfter then Serve(cached.value)
                      else Fail(Cause(states[i].progress.certRead, states[i].progress.keyRead)), now, true)
  {
    CallsFinish(states, steps, i);
  }

  /** The cache is never lost. */
  lemma {:induction false} CacheKept(states: seq<System>, steps: seq<Step>, i: nat, j: nat)
    requires Run(states, steps) && i <= j < |states| && states[i].reloader.cert.Some?
    ensures states[j].reloader.cert.Some?
  {
    if i < j {
      CacheKept(states, steps, i, j - 1);
      TraceInvHolds(states, steps, j - 1);
      TraceInvStep(states[j - 1], steps[j - 1]);
    }
  }

  /** Every returned certificate was loaded from a matching pair before, and after
      a failed load it has not expired. */
  lemma ReturnedWasLoaded(states: seq<System>, steps: seq<Step>, i: nat, k: nat)
    requires Run(states, steps) && i < |states|
    requires k < |states[i].trace| && states[i].trace[k].Return? && states[i].trace[k].result.Serve?
    ensures var e := states[i].trace[k];
            && Matching(e.result.cert)
            && (exists h | 0 <= h < k :: states[i].trace[h] == Load(e.result.cert))
            && (e.failed ==> e.now < e.result.cert.leaf.notAfter)
  {
    TraceInvHolds(states, steps, i);
    var trace := states[i].trace;
    var c := trace[k].result.cert;
    assert GoodEvent(trace[..k], trace[k]);
    var h :| 0 <= h < |trace[..k]| && trace[..k][h] == Load(c);
    assert trace[h] == Load(c) && GoodEvent(trace[..h], trace[h]);
  }

  /** Failure lines with only returns between them: the earlier one is the last
      failure when the later one is logged. */
  lemma {:induction false} LastFailureStays(trace: seq<Event>, a: nat, b: nat)
    requires a < b <= |trace| && trace[a].Failure?
    requires forall k | a < k < b :: trace[k].Return?
    ensures LastFailure(trace[..b]) == trace[a].line
  {
    if a + 1 < b {
      LastFailureStays(trace, a, b - 1);
      assert trace[..b][..b - 1] == trace[..b - 1];
    }
  }

  /** Between two successful loads, no two consecutive logged failure lines are
      equal. */
  lemma NoRepeatedFailure(states: seq<System>, steps: seq<Step>, i: nat, a: nat, b: nat)
    requires Run(states, steps) && i < |states|
    requires a < b < |states[i].trace| && states[i].trace[a].Failure? && states[i].trace[b].Failure?
    requires forall k | a < k < b :: states[i].trace[k].Return?
    ensures states[i].trace[a].line != states[i].trace[b].line
  {
    TraceInvHolds(states, steps, i);
    var trace := states[i].trace;
    LastFailureStays(trace, a, b);
    assert GoodEvent(trace[..b], trace[b]);
  }

  // ----- Why modification times must not repeat

  predicate Steps(states: seq<System>, steps: seq<Step>) {
    && |states| == |steps| + 1
    && Initial(states[0])
    && forall i | 0 <= i < |steps| :: Enabled(states[i], steps[i]) && states[i + 1] == Apply(states[i], steps[i])
  }

  /** A step whose write uses a new time prolongs a run. */
  lemma RunStep(states: seq<System>, steps: seq<Step>, step: Step) returns (more: seq<System>, moreSteps: seq<Step>)
    requires Run(states, steps) && Enabled(states[|steps|], step) && Fresh(states[|steps|], step)
    ensures more == states + [Apply(states[|steps|], step)] && moreSteps == steps + [step]
    ensures Run(more, moreSteps) && more[|moreSteps|] == Apply(states[|steps|], step)
  {
    more, moreSteps := states + [Apply(states[|steps|], step)], steps + [step];
  }

  /** A call has taken both stats, of a certificate and a time that the reloader
      does not know. */
  predicate Statted(s: System, a: CertText, t: Time) {
    && s.disk.key.Some? && a.publicKey == s.disk.key.value.content.publicKey
    && s.progress == KeyStatted(Some(t), Some(s.disk.key.value.mtime))
    && s.reloader.certMod != t && t in s.disk.certTimes
  }

  lemma StatNewCertificate(states: seq<System>, steps: seq<Step>, a: CertText, t: Time)
    returns (more: seq<System>, moreSteps: seq<Step>)
    requires Run(states, steps)
    requires var s := states[|steps|];
             && s.progress == Idle && s.disk.key.Some? && a.publicKey == s.disk.key.value.content.publicKey
             && t !in s.disk.certTimes
    ensures states <= more && steps <= moreSteps && Run(more, moreSteps)
    ensures Statted(more[|moreSteps|], a, t)
    ensures more[|moreSteps|].disk ==
            var d := states[|steps|].disk; d.(cert := Some(File(a, t)), certTimes := d.certTimes + {t})
  {
    InvHolds(states, steps, |steps|);
    more, moreSteps := RunStep(states, steps, WriteCert(a, t));
    more, moreSteps := RunStep(more, moreSteps, StatCert(true));
    more, moreSteps := RunStep(more, moreSteps, StatKey(true));
  }

  /** The cache holds a pair under a time that its certificate never had. */
  predicate CachedUnder(s: System, b: CertText, t: Time) {
    && s.disk.key.Some? && s.reloader.keyMod == s.disk.key.value.mtime
    && s.reloader.cert == Some(Certificate(b, s.disk.key.value.content)) && s.reloader.certMod == t
  }

  lemma ReadOtherCertificate(states: seq<System>, steps: seq<Step>, a: CertText, b: CertText, t: Time, u: Time)
    returns (more: seq<System>, moreSteps: seq<Step>)
    requires Run(states, steps) && Statted(states[|steps|], a, t)
    requires b.publicKey == a.publicKey && u !in states[|steps|].disk.certTimes
    ensures states <= more && steps <= moreSteps && Run(more, moreSteps)
    ensures CachedUnder(more[|moreSteps|], b, t) && t in more[|moreSteps|].disk.certTimes
  {
    more, moreSteps := RunStep(states, steps, WriteCert(b, u));
    more, moreSteps := RunStep(more, moreSteps, ReadCert(true, ""));
    more, moreSteps := RunStep(more, moreSteps, ReadKey(true, ""));
    more, moreSteps := RunStep(more, moreSteps, Finish);
  }

  /** From every reachable state between two calls, with any two different
      certificates that match the key, a run goes on in which one write reuses a
      time and all others are fresh, and which ends with another pair cached than
      the one on disk, under times that match: a file is swapped while a call runs
      and swapped back with its old time. */
  lemma RepeatedTimeBreaks(states: seq<System>, steps: seq<Step>, a: CertText, b: CertText, t: Time, u: Time)
    returns (more: seq<System>, moreSteps: seq<Step>)
    requires Run(states, steps)
    requires var s := states[|steps|];
             && s.progress == Idle && s.disk.key.Some?
             && a.publicKey == b.publicKey == s.disk.key.value.content.publicKey && a != b
             && t !in s.disk.certTimes && u !in s.disk.certTimes && t != u
    ensures states <= more && steps <= moreSteps && Steps(more, moreSteps)
    ensures forall i | 0 <= i < |moreSteps| - 1 :: Fresh(more[i], moreSteps[i])
    ensures moreSteps != [] && moreSteps[|moreSteps| - 1] == WriteCert(a, t) && !Agrees(more[|moreSteps|])
  {
    var back := WriteCert(a, t);
    more, moreSteps := StatNewCertificate(states, steps, a, t);
    more, moreSteps := ReadOtherCertificate(more, moreSteps, a, b, t, u);
    more, moreSteps := more + [Apply(more[|moreSteps|], back)], moreSteps + [back];
  }
}
