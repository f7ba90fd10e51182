/** The MQTT side of the daemon: which lights have been announced, and what is published for each C-Bus event.

    The publications are kept in a log, in the order they are scheduled. A connection loss, which forgets all
    announcements, leaves a mark there. */
module Gateway {
  import opened Wrappers

  datatype Light = Light(on: bool, brightness: int, transition: int, source: Option<int>)

  datatype Publication =
    | Subscribed(app: int, group: int)
    | DaemonConfig
    | LightConfig(app: int, group: int)
    | SensorConfig(app: int, group: int)
    | LightState(app: int, group: int, light: Light)
    | SensorState(app: int, group: int, on: bool)
    | Forgotten

  type GroupDB = map<int, map<int, bool>>

  datatype State = State(db: GroupDB, log: seq<Publication>)

  /** `setdefault(app, {})` */
  function WithApp(db: GroupDB, app: int): GroupDB {
    if app in db then db else db[app := map[]]
  }

  predicate Marked(db: GroupDB, app: int, group: int) {
    app in db && group in db[app] && db[app][group]
  }

  function Announce(s: State, app: int, group: int): State {
    var db := WithApp(s.db, app);
    State(db[app := db[app][group := true]],
          s.log + [Subscribed(app, group), LightConfig(app, group), SensorConfig(app, group)])
  }

  function CheckPublished(s: State, app: int, group: int): State {
    var t := s.(db := WithApp(s.db, app));
    if Marked(t.db, app, group) then t else Announce(t, app, group)
  }

  function ShowLight(s: State, app: int, group: int, light: Light, sensor: bool): State {
    var t := CheckPublished(s, app, group);
    t.(log := t.log + [LightState(app, group, light), SensorState(app, group, sensor)])
  }

  function ShowOn(s: State, source: Option<int>, app: int, group: int): State {
    ShowLight(s, app, group, Light(true, 255, 0, source), true)
  }

  function ShowOff(s: State, source: Option<int>, app: int, group: int): State {
    ShowLight(s, app, group, Light(false, 0, 0, source), false)
  }

  function ShowRamp(s: State, source: Option<int>, app: int, group: int, duration: int, level: int): State {
    ShowLight(s, app, group, Light(true, level, duration, source), level > 0)
  }

  /** One level of a status report. */
  function ShowLevel(s: State, app: int, group: int, level: int): State {
    var t := CheckPublished(s, app, group);
    if level == 0 then ShowOff(t, Some(0), app, group)
    else if level == 255 then ShowOn(t, Some(0), app, group)
    else ShowRamp(t, Some(0), app, group, 0, level)
  }

  function ShowLevels(s: State, app: int, start: int, report: seq<Option<int>>): State
    decreases |report|
  {
    if report == [] then s
    else
      var t := if report[0].Some? then ShowLevel(s, app, start, report[0].value) else s;
      ShowLevels(t, app, start + 1, report[1..])
  }

  function ShowReport(s: State, app: int, start: int, report: seq<Option<int>>): State {
    ShowLevels(s.(db := WithApp(s.db, app)), app, start, report)
  }

  /** A command from MQTT, once sent to the bus. */
  function ShowSwitch(s: State, app: int, group: int, on: bool, brightness: int, transition: int): State {
    if !on then ShowOff(s, None, app, group)
    else if brightness == 255 && transition == 0 then ShowOn(s, None, app, group)
    else ShowRamp(s, None, app, group, transition, brightness)
  }

  function AnnounceAll(s: State, labels: seq<(int, int)>): State
    decreases |labels|
  {
    if labels == [] then s else AnnounceAll(Announce(s, labels[0].0, labels[0].1), labels[1..])
  }

  function Forget(s: State): State {
    State(map[], s.log + [Forgotten])
  }

  // ---- Events of the daemon -------------------------------------------------------------

  datatype Event =
    | Attached(labels: seq<(int, int)>)
    | Level(app: int, start: int, report: seq<Option<int>>)
    | On(source: int, group: int, app: int)
    | Off(source: int, group: int, app: int)
    | Ramp(source: int, group: int, app: int, duration: int, level: int)
    | Switched(group: int, app: int, on: bool, brightness: int, transition: int)
    | Lost
    | Reconnected
    | Rebound

  /** The handler in use relays bus events while it has a client and is not closing. After a loss the transport makes
      a fresh handler, to which the same client is bound again, without announcing anything. */
  datatype Daemon = Daemon(attached: bool, closing: bool, state: State)

  const START := Daemon(false, false, State(map[], []))

  predicate Relays(d: Daemon) {
    d.attached && !d.closing
  }

  function Step(d: Daemon, e: Event): Daemon {
    match e
    case Attached(labels) =>
      d.(attached := true, state := AnnounceAll(d.state.(log := d.state.log + [DaemonConfig]), labels))
    case Level(app, start, report) =>
      if Relays(d) then d.(state := ShowReport(d.state, app, start, report)) else d
    case On(source, group, app) =>
      if Relays(d) then d.(state := ShowOn(d.state, Some(source), app, group)) else d
    case Off(source, group, app) =>
      if Relays(d) then d.(state := ShowOff(d.state, Some(source), app, group)) else d
    case Ramp(source, group, app, duration, level) =>
      if Relays(d) then d.(state := ShowRamp(d.state, Some(source), app, group, duration, level)) else d
    case Switched(group, app, on, brightness, transition) =>
      d.(state := ShowSwitch(d.state, app, group, on, brightness, transition))
    case Lost =>
      Daemon(d.attached && d.closing, true, if d.attached then Forget(d.state) else d.state)
    case Reconnected => Daemon(false, false, d.state)
    case Rebound => d.(attached := true)
  }

  function Run(d: Daemon, events: seq<Event>): Daemon
    decreases |events|
  {
    if events == [] then d else Run(Step(d, events[0]), events[1..])
  }

  // ---- Discovery comes before state -----------------------------------------------------

  /** What was published since announcements were last forgotten. */
  function SinceForgotten(log: seq<Publication>): seq<Publication> {
    if log == [] || log[|log| - 1].Forgotten? then [] else SinceForgotten(log[..|log| - 1]) + [log[|log| - 1]]
  }

  predicate Announced(log: seq<Publication>, app: int, group: int) {
    LightConfig(app, group) in SinceForgotten(log)
  }

  lemma AnnouncedAfter(log: seq<Publication>, p: Publication, app: int, group: int)
    ensures Announced(log + [p], app, group)
       <==> (p == LightConfig(app, group) || (Announced(log, app, group) && !p.Forgotten?))
  {
    assert (log + [p])[..|log|] == log;
  }

  predicate IsState(p: Publication) {
    p.LightState? || p.SensorState?
  }

  ghost predicate InOrder(log: seq<Publication>) {
    forall i | 0 <= i < |log| && IsState(log[i]) :: Announced(log[..i], log[i].app, log[i].group)
  }

  lemma InOrderAfter(log: seq<Publication>, p: Publication)
    requires InOrder(log) && (IsState(p) ==> Announced(log, p.app, p.group))
    ensures InOrder(log + [p])
  {
    var longer := log + [p];
    assert longer[..|log|] == log;
    forall i | 0 <= i < |log| && IsState(log[i])
      ensures Announced(longer[..i], longer[i].app, longer[i].group)
    {
      assert longer[..i] == log[..i];
    }
  }

  /** The index marks exactly the lights announced since it was last cleared, and no state went out before that. */
  ghost predicate Consistent(s: State) {
    && InOrder(s.log)
    && (forall app, group :: Marked(s.db, app, group) <==> Announced(s.log, app, group))
  }

  lemma PublishKeepsConsistent(s: State, p: Publication)
    requires Consistent(s) && !p.Forgotten? && !p.LightConfig?
    requires IsState(p) ==> Marked(s.db, p.app, p.group)
    ensures Consistent(s.(log := s.log + [p]))
  {
    InOrderAfter(s.log, p);
    forall app, group
      ensures Announced(s.log + [p], app, group) <==> Announced(s.log, app, group)
    {
      AnnouncedAfter(s.log, p, app, group);
    }
  }

  lemma AnnounceKeepsConsistent(s: State, app: int, group: int)
    requires Consistent(s)
    ensures Consistent(Announce(s, app, group)) && Marked(Announce(s, app, group).db, app, group)
  {
    var a := s.(log := s.log + [Subscribed(app, group)]);
    PublishKeepsConsistent(s, Subscribed(app, group));
    var b := State(Announce(s, app, group).db, a.log + [LightConfig(app, group)]);
    InOrderAfter(a.log, LightConfig(app, group));
    forall x, y
      ensures Marked(b.db, x, y) <==> Announced(b.log, x, y)
    {
      AnnouncedAfter(a.log, LightConfig(app, group), x, y);
      assert Marked(s.db, x, y) <==> Announced(a.log, x, y);
    }
    PublishKeepsConsistent(b, SensorConfig(app, group));
    assert Announce(s, app, group).log == b.log + [SensorConfig(app, group)];
  }

  lemma CheckKeepsConsistent(s: State, app: int, group: int)
    requires Consistent(s)
    ensures Consistent(CheckPublished(s, app, group)) && Marked(CheckPublished(s, app, group).db, app, group)
  {
    var t := s.(db := WithApp(s.db, app));
    assert forall x, y :: Marked(t.db, x, y) <==> Marked(s.db, x, y);
    if !Marked(t.db, app, group) {
      AnnounceKeepsConsistent(t, app, group);
    }
  }

  lemma ShowKeepsConsistent(s: State, app: int, group: int, light: Light, sensor: bool)
    requires Consistent(s)
    ensures Consistent(ShowLight(s, app, group, light, sensor))
  {
    var t := CheckPublished(s, app, group);
    CheckKeepsConsistent(s, app, group);
    var u := t.(log := t.log + [LightState(app, group, light)]);
    PublishKeepsConsistent(t, LightState(app, group, light));
    PublishKeepsConsistent(u, SensorState(app, group, sensor));
    assert ShowLight(s, app, group, light, sensor).log == u.log + [SensorState(app, group, sensor)];
  }

  function LightOf(level: int): Light {
    if level == 0 then Light(false, 0, 0, Some(0)) else Light(true, level, 0, Some(0))
  }

  lemma LevelIsShown(s: State, app: int, group: int, level: int)
    ensures ShowLevel(s, app, group, level)
         == ShowLight(CheckPublished(s, app, group), app, group, LightOf(level), level > 0 || level == 255)
  {}

  lemma {:induction false} LevelsKeepConsistent(s: State, app: int, start: int, report: seq<Option<int>>)
    requires Consistent(s)
    ensures Consistent(ShowLevels(s, app, start, report))
    decreases |report|
  {
    if report != [] {
      if report[0].Some? {
        CheckKeepsConsistent(s, app, start);
        LevelIsShown(s, app, start, report[0].value);
        ShowKeepsConsistent(CheckPublished(s, app, start), app, start, LightOf(report[0].value), report[0].value > 0);
        LevelsKeepConsistent(ShowLevel(s, app, start, report[0].value), app, start + 1, report[1..]);
      } else {
        LevelsKeepConsistent(s, app, start + 1, report[1..]);
      }
    }
  }

  lemma {:induction false} AnnounceAllKeepsConsistent(s: State, labels: seq<(int, int)>)
    requires Consistent(s)
    ensures Consistent(AnnounceAll(s, labels))
    decreases |labels|
  {
    if labels != [] {
      AnnounceKeepsConsistent(s, labels[0].0, labels[0].1);
      AnnounceAllKeepsConsistent(Announce(s, labels[0].0, labels[0].1), labels[1..]);
    }
  }

  lemma ForgetKeepsConsistent(s: State)
    requires Consistent(s)
    ensures Consistent(Forget(s))
  {
    InOrderAfter(s.log, Forgotten);
    forall app, group
      ensures !Announced(Forget(s).log, app, group)
    {
      AnnouncedAfter(s.log, Forgotten, app, group);
    }
  }

  lemma StepKeepsConsistent(d: Daemon, e: Event)
    requires Consistent(d.state)
    ensures Consistent(Step(d, e).state)
  {
    match e
    case Attached(labels) =>
      PublishKeepsConsistent(d.state, DaemonConfig);
      AnnounceAllKeepsConsistent(d.state.(log := d.state.log + [DaemonConfig]), labels);
    case Level(app, start, report) =>
      var t := d.state.(db := WithApp(d.state.db, app));
      assert forall x, y :: Marked(t.db, x, y) <==> Marked(d.state.db, x, y);
      LevelsKeepConsistent(t, app, start, report);
    case On(source, group, app) => ShowKeepsConsistent(d.state, app, group, Light(true, 255, 0, Some(source)), true);
    case Off(source, group, app) => ShowKeepsConsistent(d.state, app, group, Light(false, 0, 0, Some(source)), false);
    case Ramp(source, group, app, duration, level) =>
      ShowKeepsConsistent(d.state, app, group, Light(true, level, duration, Some(source)), level > 0);
    case Switched(group, app, on, brightness, transition) =>
      ShowKeepsConsistent(d.state, app, group, Light(false, 0, 0, None), false);
      ShowKeepsConsistent(d.state, app, group, Light(true, 255, 0, None), true);
      ShowKeepsConsistent(d.state, app, group, Light(true, brightness, transition, None), brightness > 0);
    case Lost => ForgetKeepsConsistent(d.state);
    case Reconnected =>
    case Rebound =>
  }

  lemma {:induction false} RunKeepsConsistent(d: Daemon, events: seq<Event>)
    requires Consistent(d.state)
    ensures Consistent(Run(d, events).state)
    decreases |events|
  {
    if events != [] {
      StepKeepsConsistent(d, events[0]);
      RunKeepsConsistent(Step(d, events[0]), events[1..]);
    }
  }

  /** Over any sequence of events, a state is published only after the discovery of its light, since the last
      connection loss; and the index marks exactly the lights discovered since then. */
  lemma DiscoveryComesFirst(events: seq<Event>)
    ensures var s := Run(START, events).state;
            && (forall i | 0 <= i < |s.log| && IsState(s.log[i]) ::
                  LightConfig(s.log[i].app, s.log[i].group) in SinceForgotten(s.log[..i]))
            && (forall app, group :: Marked(s.db, app, group) <==> LightConfig(app, group) in SinceForgotten(s.log))
  {
    RunKeepsConsistent(START, events);
    var s := Run(START, events).state;
    assert forall i | 0 <= i < |s.log| && IsState(s.log[i]) :: Announced(s.log[..i], s.log[i].app, s.log[i].group);
    assert forall app, group :: Announced(s.log, app, group) <==> LightConfig(app, group) in SinceForgotten(s.log);
  }

  /** How often a light was discovered since announcements were last forgotten. */
  function Discoveries(log: seq<Publication>, app: int, group: int): nat {
    if log == [] || log[|log| - 1].Forgotten? then 0
    else Discoveries(log[..|log| - 1], app, group) + if log[|log| - 1] == LightConfig(app, group) then 1 else 0
  }

  lemma DiscoveriesAfter(log: seq<Publication>, p: Publication, app: int, group: int)
    ensures Discoveries(log + [p], app, group)
         == if p.Forgotten? then 0 else Discoveries(log, app, group) + if p == LightConfig(app, group) then 1 else 0
  {
    assert (log + [p])[..|log|] == log;
  }

  /** A light is discovered once while the index marks it, and not at all while it does not. */
  predicate Once(s: State, app: int, group: int) {
    Discoveries(s.log, app, group) == if Marked(s.db, app, group) then 1 else 0
  }

  lemma AnnounceCounts(s: State, a: int, g: int, app: int, group: int)
    ensures Discoveries(Announce(s, a, g).log, app, group)
         == Discoveries(s.log, app, group) + if a == app && g == group then 1 else 0
    ensures Marked(Announce(s, a, g).db, app, group) <==> Marked(s.db, app, group) || (a == app && g == group)
  {
    var x, y, z := Subscribed(a, g), LightConfig(a, g), SensorConfig(a, g);
    DiscoveriesAfter(s.log, x, app, group);
    DiscoveriesAfter(s.log + [x], y, app, group);
    DiscoveriesAfter(s.log + [x] + [y], z, app, group);
    assert s.log + [x, y, z] == s.log + [x] + [y] + [z];
  }

  lemma ShowKeepsOnce(s: State, a: int, g: int, light: Light, sensor: bool, app: int, group: int)
    requires Once(s, app, group)
    ensures Once(CheckPublished(s, a, g), app, group) && Once(ShowLight(s, a, g, light, sensor), app, group)
  {
    AnnounceCounts(s.(db := WithApp(s.db, a)), a, g, app, group);
    var log := CheckPublished(s, a, g).log;
    DiscoveriesAfter(log, LightState(a, g, light), app, group);
    DiscoveriesAfter(log + [LightState(a, g, light)], SensorState(a, g, sensor), app, group);
    assert log + [LightState(a, g, light), SensorState(a, g, sensor)]
        == log + [LightState(a, g, light)] + [SensorState(a, g, sensor)];
  }

  lemma {:induction false} LevelsKeepOnce(s: State, a: int, start: int, report: seq<Option<int>>, app: int, group: int)
    requires Once(s, app, group)
    ensures Once(ShowLevels(s, a, start, report), app, group)
    decreases |report|
  {
    if report != [] {
      if report[0].Some? {
        var level := report[0].value;
        LevelIsShown(s, a, start, level);
        ShowKeepsOnce(s, a, start, LightOf(level), level > 0, app, group);
        ShowKeepsOnce(CheckPublished(s, a, start), a, start, LightOf(level), level > 0, app, group);
        LevelsKeepOnce(ShowLevel(s, a, start, level), a, start + 1, report[1..], app, group);
      } else {
        LevelsKeepOnce(s, a, start + 1, report[1..], app, group);
      }
    }
  }

  lemma {:induction false} LabelsKeepOnce(s: State, labels: seq<(int, int)>, app: int, group: int)
    requires Once(s, app, group) && (app, group) !in labels
    ensures Once(AnnounceAll(s, labels), app, group)
    decreases |labels|
  {
    if labels != [] {
      assert labels[0] in labels;
      AnnounceCounts(s, labels[0].0, labels[0].1, app, group);
      LabelsKeepOnce(Announce(s, labels[0].0, labels[0].1), labels[1..], app, group);
    }
  }

  lemma StepKeepsOnce(d: Daemon, e: Event, app: int, group: int)
    requires Once(d.state, app, group) && (e.Attached? ==> (app, group) !in e.labels)
    ensures Once(Step(d, e).state, app, group)
  {
    match e
    case Attached(labels) =>
      DiscoveriesAfter(d.state.log, DaemonConfig, app, group);
      LabelsKeepOnce(d.state.(log := d.state.log + [DaemonConfig]), labels, app, group);
    case Level(a, start, report) =>
      LevelsKeepOnce(d.state.(db := WithApp(d.state.db, a)), a, start, report, app, group);
    case On(source, g, a) => ShowKeepsOnce(d.state, a, g, Light(true, 255, 0, Some(source)), true, app, group);
    case Off(source, g, a) => ShowKeepsOnce(d.state, a, g, Light(false, 0, 0, Some(source)), false, app, group);
    case Ramp(source, g, a, duration, level) =>
      ShowKeepsOnce(d.state, a, g, Light(true, level, duration, Some(source)), level > 0, app, group);
    case Switched(g, a, on, brightness, transition) =>
      ShowKeepsOnce(d.state, a, g, Light(false, 0, 0, None), false, app, group);
      ShowKeepsOnce(d.state, a, g, Light(true, brightness, transition, None), brightness > 0, app, group);
    case Lost => DiscoveriesAfter(d.state.log, Forgotten, app, group);
    case Reconnected =>
    case Rebound =>
  }

  lemma {:induction false} RunKeepsOnce(d: Daemon, events: seq<Event>, app: int, group: int)
    requires Once(d.state, app, group) && forall e | e in events && e.Attached? :: (app, group) !in e.labels
    ensures Once(Run(d, events).state, app, group)
    decreases |events|
  {
    if events != [] {
      assert events[0] in events;
      StepKeepsOnce(d, events[0], app, group);
      RunKeepsOnce(Step(d, events[0]), events[1..], app, group);
    }
  }

  /** Over any sequence of events, a light that has no label is discovered at most once between losses. */
  lemma DiscoveredOnce(events: seq<Event>, app: int, group: int)
    requires forall e | e in events && e.Attached? :: (app, group) !in e.labels
    ensures var s := Run(START, events).state;
            Discoveries(s.log, app, group) == if LightConfig(app, group) in SinceForgotten(s.log) then 1 else 0
  {
    RunKeepsOnce(START, events, app, group);
    DiscoveryComesFirst(events);
  }

  /** A client that attaches announces the daemon, and then each label in order: subscription, light and sensor. */
  lemma {:induction false} LabelsAreAnnounced(s: State, labels: seq<(int, int)>, i: nat)
    requires i < |labels|
    ensures var log, at, (app, group) := AnnounceAll(s, labels).log, |s.log| + 3 * i, labels[i];
            && s.log <= log && |log| == |s.log| + 3 * |labels|
            && log[at] == Subscribed(app, group) && log[at + 1] == LightConfig(app, group)
            && log[at + 2] == SensorConfig(app, group)
    decreases |labels|
  {
    var t := Announce(s, labels[0].0, labels[0].1);
    AnnouncesMore(t, labels[1..]);
    if i > 0 {
      LabelsAreAnnounced(t, labels[1..], i - 1);
    }
  }

  lemma {:induction false} AnnouncesMore(s: State, labels: seq<(int, int)>)
    ensures s.log <= AnnounceAll(s, labels).log && |AnnounceAll(s, labels).log| == |s.log| + 3 * |labels|
    decreases |labels|
  {
    if labels != [] {
      AnnouncesMore(Announce(s, labels[0].0, labels[0].1), labels[1..]);
    }
  }

  // ---- What a level report publishes ----------------------------------------------------

  function LightStates(log: seq<Publication>): seq<Publication> {
    if log == [] then []
    else if log[|log| - 1].LightState? then LightStates(log[..|log| - 1]) + [log[|log| - 1]]
    else LightStates(log[..|log| - 1])
  }

  /** One state for each level present, at its own group. */
  function StatesOf(app: int, start: int, report: seq<Option<int>>): seq<Publication>
    decreases |report|
  {
    if report == [] then []
    else
      (if report[0].Some? then [LightState(app, start, LightOf(report[0].value))] else [])
      + StatesOf(app, start + 1, report[1..])
  }

  lemma LightStatesAfter(log: seq<Publication>, p: Publication)
    ensures LightStates(log + [p]) == LightStates(log) + if p.LightState? then [p] else []
  {
    assert (log + [p])[..|log|] == log;
  }

  lemma CheckShowsNothing(s: State, app: int, group: int)
    ensures LightStates(CheckPublished(s, app, group).log) == LightStates(s.log)
  {
    var a, b, c := Subscribed(app, group), LightConfig(app, group), SensorConfig(app, group);
    LightStatesAfter(s.log, a);
    LightStatesAfter(s.log + [a], b);
    LightStatesAfter(s.log + [a] + [b], c);
    assert s.log + [a, b, c] == s.log + [a] + [b] + [c];
  }

  lemma ShowShowsOne(s: State, app: int, group: int, light: Light, sensor: bool)
    ensures LightStates(ShowLight(s, app, group, light, sensor).log)
         == LightStates(s.log) + [LightState(app, group, light)]
  {
    CheckShowsNothing(s, app, group);
    var log := CheckPublished(s, app, group).log;
    var a, b := LightState(app, group, light), SensorState(app, group, sensor);
    LightStatesAfter(log, a);
    LightStatesAfter(log + [a], b);
    assert log + [a, b] == log + [a] + [b];
  }

  lemma {:induction false} LevelsShowEach(s: State, app: int, start: int, report: seq<Option<int>>)
    ensures LightStates(ShowLevels(s, app, start, report).log) == LightStates(s.log) + StatesOf(app, start, report)
    decreases |report|
  {
    if report != [] {
      if report[0].Some? {
        var level := report[0].value;
        CheckShowsNothing(s, app, start);
        LevelIsShown(s, app, start, level);
        ShowShowsOne(CheckPublished(s, app, start), app, start, LightOf(level), level > 0);
        LevelsShowEach(ShowLevel(s, app, start, level), app, start + 1, report[1..]);
      } else {
        LevelsShowEach(s, app, start + 1, report[1..]);
      }
    }
  }

  /** A level report publishes one light state for each level it has, in order, at group `start + i`. */
  lemma ReportShowsEachLevel(d: Daemon, app: int, start: int, report: seq<Option<int>>)
    ensures LightStates(Step(d, Level(app, start, report)).state.log)
         == LightStates(d.state.log) + if Relays(d) then StatesOf(app, start, report) else []
  {
    if Relays(d) {
      LevelsShowEach(d.state.(db := WithApp(d.state.db, app)), app, start, report);
    }
  }

  lemma {:induction false} StatesOfAt(app: int, start: int, report: seq<Option<int>>, i: nat)
    requires i < |report| && report[i].Some?
    ensures var level := report[i].value;
            LightState(app, start + i,
                       if level == 0 then Light(false, 0, 0, Some(0)) else Light(true, level, 0, Some(0)))
            in StatesOf(app, start, report)
    decreases |report|
  {
    if i > 0 {
      StatesOfAt(app, start + 1, report[1..], i - 1);
    }
  }

  /** Each position of a report stands for itself, in order; one without a level shows nothing. */
  lemma {:induction false} StatesConcat(app: int, start: int, report: seq<Option<int>>, more: seq<Option<int>>)
    ensures StatesOf(app, start, report + more)
         == StatesOf(app, start, report) + StatesOf(app, start + |report|, more)
    ensures StatesOf(app, start, [None]) == []
    ensures forall level: int ::
              StatesOf(app, start, [Some(level)])
              == [LightState(app, start, if level == 0 then Light(false, 0, 0, Some(0))
                                         else Light(true, level, 0, Some(0)))]
    decreases |report|
  {
    if report == [] {
      assert [] + more == more;
    } else {
      assert (report + more)[1..] == report[1..] + more;
      StatesConcat(app, start + 1, report[1..], more);
    }
  }

  /** The last that was published: this state of the light, and whether it is lit. */
  predicate EndsWith(log: seq<Publication>, app: int, group: int, light: Light) {
    && |log| >= 2 && log[|log| - 2] == LightState(app, group, light)
    && log[|log| - 1] == SensorState(app, group, light.brightness > 0)
  }

  /** What each event from the bus shows. */
  lemma EventsShowTheirLight(d: Daemon, source: int, group: int, app: int, duration: int, level: int)
    requires Relays(d)
    ensures EndsWith(Step(d, On(source, group, app)).state.log, app, group, Light(true, 255, 0, Some(source)))
    ensures EndsWith(Step(d, Off(source, group, app)).state.log, app, group, Light(false, 0, 0, Some(source)))
    ensures EndsWith(Step(d, Ramp(source, group, app, duration, level)).state.log, app, group,
                     Light(true, level, duration, Some(source)))
  {}

  /** A switch from MQTT shows the brightness and transition asked for, full brightness at once included, and darkness
      when it is off; and no bus address. */
  lemma SwitchesShowTheirLight(d: Daemon, group: int, app: int, on: bool, brightness: int, transition: int)
    ensures EndsWith(Step(d, Switched(group, app, on, brightness, transition)).state.log, app, group,
                     if on then Light(true, brightness, transition, None) else Light(false, 0, 0, None))
  {}

  /** Every state of a light is followed at once by whether it is lit: just when its brightness is above zero. */
  ghost predicate Paired(log: seq<Publication>) {
    forall i | 0 <= i < |log| && log[i].LightState? :: PairedAt(log, i)
  }

  predicate PairedAt(log: seq<Publication>, i: nat)
    requires i < |log| && log[i].LightState?
  {
    i + 1 < |log| && log[i + 1] == SensorState(log[i].app, log[i].group, log[i].light.brightness > 0)
  }

  lemma PairedAfter(log: seq<Publication>, more: seq<Publication>)
    requires Paired(log) && forall p | p in more :: !p.LightState?
    ensures Paired(log + more)
  {
    forall i | 0 <= i < |log + more| && (log + more)[i].LightState?
      ensures PairedAt(log + more, i)
    {
      if i < |log| {
        assert PairedAt(log, i);
      }
    }
  }

  lemma CheckKeepsPairs(s: State, app: int, group: int)
    requires Paired(s.log)
    ensures Paired(CheckPublished(s, app, group).log)
  {
    PairedAfter(s.log, [Subscribed(app, group), LightConfig(app, group), SensorConfig(app, group)]);
  }

  lemma ShowKeepsPairs(s: State, app: int, group: int, light: Light)
    requires Paired(s.log)
    ensures Paired(ShowLight(s, app, group, light, light.brightness > 0).log)
  {
    CheckKeepsPairs(s, app, group);
    var log := CheckPublished(s, app, group).log;
    var after := log + [LightState(app, group, light), SensorState(app, group, light.brightness > 0)];
    forall i | 0 <= i < |after| && after[i].LightState?
      ensures PairedAt(after, i)
    {
      if i < |log| {
        assert PairedAt(log, i);
      }
    }
  }

  lemma {:induction false} LevelsKeepPairs(s: State, app: int, start: int, report: seq<Option<int>>)
    requires Paired(s.log)
    ensures Paired(ShowLevels(s, app, start, report).log)
    decreases |report|
  {
    if report != [] {
      if report[0].Some? {
        CheckKeepsPairs(s, app, start);
        LevelIsShown(s, app, start, report[0].value);
        ShowKeepsPairs(CheckPublished(s, app, start), app, start, LightOf(report[0].value));
        LevelsKeepPairs(ShowLevel(s, app, start, report[0].value), app, start + 1, report[1..]);
      } else {
        LevelsKeepPairs(s, app, start + 1, report[1..]);
      }
    }
  }

  lemma {:induction false} AnnounceAllKeepsPairs(s: State, labels: seq<(int, int)>)
    requires Paired(s.log)
    ensures Paired(AnnounceAll(s, labels).log)
    decreases |labels|
  {
    if labels != [] {
      var (app, group) := labels[0];
      PairedAfter(s.log, [Subscribed(app, group), LightConfig(app, group), SensorConfig(app, group)]);
      AnnounceAllKeepsPairs(Announce(s, app, group), labels[1..]);
    }
  }

  lemma StepKeepsPairs(d: Daemon, e: Event)
    requires Paired(d.state.log)
    ensures Paired(Step(d, e).state.log)
  {
    match e
    case Attached(labels) =>
      PairedAfter(d.state.log, [DaemonConfig]);
      AnnounceAllKeepsPairs(d.state.(log := d.state.log + [DaemonConfig]), labels);
    case Level(app, start, report) => LevelsKeepPairs(d.state.(db := WithApp(d.state.db, app)), app, start, report);
    case On(source, group, app) => ShowKeepsPairs(d.state, app, group, Light(true, 255, 0, Some(source)));
    case Off(source, group, app) => ShowKeepsPairs(d.state, app, group, Light(false, 0, 0, Some(source)));
    case Ramp(source, group, app, duration, level) =>
      ShowKeepsPairs(d.state, app, group, Light(true, level, duration, Some(source)));
    case Switched(group, app, on, brightness, transition) =>
      ShowKeepsPairs(d.state, app, group,
                     if on then Light(true, brightness, transition, None) else Light(false, 0, 0, None));
    case Lost => PairedAfter(d.state.log, [Forgotten]);
    case Reconnected =>
    case Rebound =>
  }

  /** Over every run the binary sensor of a light follows its state, and is on just when the brightness is above
      zero. */
  lemma {:induction false} SensorFollowsLight(d: Daemon, events: seq<Event>)
    requires Paired(d.state.log)
    ensures Paired(Run(d, events).state.log)
    decreases |events|
  {
    if events != [] {
      StepKeepsPairs(d, events[0]);
      SensorFollowsLight(Step(d, events[0]), events[1..]);
    }
  }

  /** A light event, or a report, from the bus. */
  predicate FromBus(e: Event) {
    e.Level? || e.On? || e.Off? || e.Ramp?
  }

  /** Once a handler is closing, as after a connection loss, bus events publish nothing. */
  lemma {:induction false} SilentAfterLoss(d: Daemon, events: seq<Event>)
    requires d.closing && forall e | e in events :: FromBus(e)
    ensures Run(d, events) == d
    decreases |events|
  {
    if events != [] {
      assert events[0] in events;
      SilentAfterLoss(d, events[1..]);
    }
  }

  /** What happened since the handler in use was made. */
  function SinceReconnected(events: seq<Event>): seq<Event> {
    if events == [] || events[|events| - 1].Reconnected? then []
    else SinceReconnected(events[..|events| - 1]) + [events[|events| - 1]]
  }

  predicate WasLost(events: seq<Event>) {
    exists e | e in events :: e.Lost?
  }

  predicate WasBound(events: seq<Event>) {
    exists e | e in events :: e.Attached? || e.Rebound?
  }

  lemma {:induction false} RunOneMore(d: Daemon, events: seq<Event>, e: Event)
    ensures Run(d, events + [e]) == Step(Run(d, events), e)
    decreases |events|
  {
    if events == [] {
      assert [] + [e] == [e] && [e][1..] == [];
    } else {
      assert (events + [e])[1..] == events[1..] + [e];
      RunOneMore(Step(d, events[0]), events[1..], e);
    }
  }

  /** The handler is closing if its connection was lost, and until then has a client if one was bound to it. */
  predicate FollowsFrom(d: Daemon, since: seq<Event>) {
    && (d.closing <==> WasLost(since))
    && (!WasLost(since) ==> (d.attached <==> WasBound(since)))
  }

  lemma StepFollows(d: Daemon, since: seq<Event>, e: Event)
    requires FollowsFrom(d, since)
    ensures FollowsFrom(Step(d, e), if e.Reconnected? then [] else since + [e])
  {
    assert forall x :: x in since + [e] <==> x in since || x == e;
  }

  lemma {:induction false} BoundUnlessLost(events: seq<Event>)
    ensures FollowsFrom(Run(START, events), SinceReconnected(events))
    decreases |events|
  {
    if events != [] {
      var earlier, e := events[..|events| - 1], events[|events| - 1];
      BoundUnlessLost(earlier);
      RunOneMore(START, earlier, e);
      assert events == earlier + [e];
      StepFollows(Run(START, earlier), SinceReconnected(earlier), e);
    }
  }

  /** A bus event is relayed exactly if a client was bound to the handler in use, and its connection was not lost
      since; so over any losses and reconnections publication resumes with the binding. */
  lemma RelaysIffBound(events: seq<Event>)
    ensures Relays(Run(START, events))
       <==> WasBound(SinceReconnected(events)) && !WasLost(SinceReconnected(events))
  {
    BoundUnlessLost(events);
  }

  /** After a loss, a reconnection and a binding the index is empty, so each light is announced afresh before its
      next state. */
  lemma AnnouncedAfresh(events: seq<Event>, source: int, group: int, app: int)
    requires Relays(Run(START, events))
    ensures var d := Run(START, events);
            var after := Step(Step(Step(d, Lost), Reconnected), Rebound);
            && Relays(after)
            && Step(after, On(source, group, app)).state.log
               == d.state.log + [Forgotten, Subscribed(app, group), LightConfig(app, group), SensorConfig(app, group),
                                 LightState(app, group, Light(true, 255, 0, Some(source))),
                                 SensorState(app, group, true)]
  {}

  // ---- The objects ----------------------------------------------------------------------

  class MqttClient {
    var groupDB: GroupDB
    ghost var log: seq<Publication>

    ghost function Value(): State
      reads this
    {
      State(groupDB, log)
    }

    constructor ()
      ensures Value() == State(map[], [])
    {
      groupDB, log := map[], [];
    }

    method Publish(ghost p: Publication)
      modifies this`log
      ensures log == old(log) + [p]
    {
      log := log + [p];
    }

    method PublishLight(group: int, app: int)
      modifies this
      ensures Value() == Announce(old(Value()), app, group)
    {
      Publish(Subscribed(app, group));
      Publish(LightConfig(app, group));
      Publish(SensorConfig(app, group));
      if app !in groupDB {
        groupDB := groupDB[app := map[]];
      }
      groupDB := groupDB[app := groupDB[app][group := true]];
    }

    method CheckIsPublished(group: int, app: int)
      modifies this
      ensures Value() == CheckPublished(old(Value()), app, group)
    {
      if app !in groupDB {
        groupDB := groupDB[app := map[]];
      }
      if !(group in groupDB[app] && groupDB[app][group]) {
        PublishLight(group, app);
      }
    }

    method LightingGroupOn(source: Option<int>, group: int, app: int)
      modifies this
      ensures Value() == ShowOn(old(Value()), source, app, group)
    {
      CheckIsPublished(group, app);
      Publish(LightState(app, group, Light(true, 255, 0, source)));
      Publish(SensorState(app, group, true));
    }

    method LightingGroupOff(source: Option<int>, group: int, app: int)
      modifies this
      ensures Value() == ShowOff(old(Value()), source, app, group)
    {
      CheckIsPublished(group, app);
      Publish(LightState(app, group, Light(false, 0, 0, source)));
      Publish(SensorState(app, group, false));
    }

    method LightingGroupRamp(source: Option<int>, group: int, app: int, duration: int, level: int)
      modifies this
      ensures Value() == ShowRamp(old(Value()), source, app, group, duration, level)
    {
      CheckIsPublished(group, app);
      Publish(LightState(app, group, Light(true, level, duration, source)));
      Publish(SensorState(app, group, level > 0));
    }

    /** After the command has gone to the bus. */
    method SwitchLight(group: int, app: int, on: bool, brightness: int, transition: int)
      modifies this
      ensures Value() == ShowSwitch(old(Value()), app, group, on, brightness, transition)
    {
      if on {
        if brightness == 255 && transition == 0 {
          LightingGroupOn(None, group, app);
        } else {
          LightingGroupRamp(None, group, app, transition, brightness);
        }
      } else {
        LightingGroupOff(None, group, app);
      }
    }

    method PublishAllLights(labels: seq<(int, int)>)
      modifies this
      ensures Value() == AnnounceAll(old(Value()).(log := old(log) + [DaemonConfig]), labels)
    {
      Publish(DaemonConfig);
      ghost var before := Value();
      for i := 0 to |labels|
        invariant AnnounceAll(Value(), labels[i..]) == AnnounceAll(before, labels)
      {
        assert labels[i..][0] == labels[i] && labels[i..][1..] == labels[i + 1..];
        PublishLight(labels[i].1, labels[i].0);
      }
    }

    method ClearGroups()
      modifies this
      ensures Value() == Forget(old(Value()))
    {
      groupDB := map[];
      Publish(Forgotten);
    }
  }

  class CBusHandler {
    const client: MqttClient
    var mqttApi: MqttClient?
    var isClosing: bool

    ghost predicate Valid()
      reads this
    {
      mqttApi == null || mqttApi == client
    }

    ghost function Value(): Daemon
      reads this, client
    {
      Daemon(mqttApi != null, isClosing, client.Value())
    }

    constructor (client: MqttClient)
      ensures Valid() && this.client == client && Value() == Daemon(false, false, client.Value())
    {
      this.client := client;
      mqttApi, isClosing := null, false;
    }

    /** The client has connected to the broker. */
    method Attach(labels: seq<(int, int)>)
      requires Valid()
      modifies this, client
      ensures Valid() && Value() == Step(old(Value()), Attached(labels))
    {
      mqttApi := client;
      client.PublishAllLights(labels);
    }

    /** The client is bound to a handler of a new connection. */
    method Rebind()
      requires Valid()
      modifies this
      ensures Valid() && Value() == Step(old(Value()), Rebound)
    {
      mqttApi := client;
    }

    method ConnectionLost()
      requires Valid()
      modifies this, client
      ensures Valid() && Value() == Step(old(Value()), Lost)
    {
      if mqttApi != null {
        mqttApi.ClearGroups();
      }
      Cleanup();
    }

    method Cleanup()
      requires Valid()
      modifies this
      ensures Valid() && isClosing && mqttApi == if old(isClosing) then old(mqttApi) else null
    {
      if isClosing {
        return;
      }
      isClosing := true;
      mqttApi := null;
    }

    method OnLightingGroupOn(source: int, group: int, app: int)
      requires Valid()
      modifies client
      ensures Valid() && Value() == Step(old(Value()), On(source, group, app))
    {
      if mqttApi != null && !isClosing {
        mqttApi.LightingGroupOn(Some(source), group, app);
      }
    }

    method OnLightingGroupOff(source: int, group: int, app: int)
      requires Valid()
      modifies client
      ensures Valid() && Value() == Step(old(Value()), Off(source, group, app))
    {
      if mqttApi != null && !isClosing {
        mqttApi.LightingGroupOff(Some(source), group, app);
      }
    }

    method OnLightingGroupRamp(source: int, group: int, app: int, duration: int, level: int)
      requires Valid()
      modifies client
      ensures Valid() && Value() == Step(old(Value()), Ramp(source, group, app, duration, level))
    {
      if mqttApi != null && !isClosing {
        mqttApi.LightingGroupRamp(Some(source), group, app, duration, level);
      }
    }

    method OnLevelReport(app: int, start: int, report: seq<Option<int>>)
      requires Valid()
      modifies client
      ensures Valid() && Value() == Step(old(Value()), Level(app, start, report))
    {
      if mqttApi == null || isClosing {
        return;
      }
      if app !in client.groupDB {
        client.groupDB := client.groupDB[app := map[]];
      }
      ghost var before := client.Value();
      var group := start;
      for i := 0 to |report|
        invariant mqttApi == client && !isClosing && group == start + i
        invariant ShowLevels(client.Value(), app, group, report[i..]) == ShowLevels(before, app, start, report)
      {
        assert report[i..][0] == report[i] && report[i..][1..] == report[i + 1..];
        if report[i].Some? {
          OnLevel(group, app, report[i].value);
        }
        group := group + 1;
      }
    }

    method OnLevel(group: int, app: int, level: int)
      requires Valid() && mqttApi != null && !isClosing
      modifies client
      ensures client.Value() == ShowLevel(old(client.Value()), app, group, level)
    {
      client.CheckIsPublished(group, app);
      if level == 0 {
        OnLightingGroupOff(0, group, app);
      } else if level == 255 {
        OnLightingGroupOn(0, group, app);
      } else {
        OnLightingGroupRamp(0, group, app, 0, level);
      }
    }
  }

  /** The daemon's loop: the client it keeps, and the handler of the connection of the moment. */
  class Session {
    const client: MqttClient
    var handler: CBusHandler

    ghost predicate Valid()
      reads this, handler
    {
      handler.client == client && handler.Valid()
    }

    ghost function Value(): Daemon
      reads this, handler, handler.client
    {
      handler.Value()
    }

    constructor (client: MqttClient)
      ensures Valid() && this.client == client && fresh(handler)
      ensures Value() == Daemon(false, false, client.Value())
    {
      this.client := client;
      handler := new CBusHandler(client);
    }

    /** The transport has connected again and made a handler of its own for the new connection. */
    method Reconnect()
      requires Valid()
      modifies this
      ensures Valid() && fresh(handler) && Value() == Step(old(Value()), Reconnected)
    {
      handler := new CBusHandler(client);
    }

    /** The loop binds the client to the handler now in use. */
    method Rebind()
      requires Valid()
      modifies handler
      ensures Valid() && handler == old(handler) && Value() == Step(old(Value()), Rebound)
    {
      handler.Rebind();
    }
  }
}
