/** The disks of an agent: colours by how full they are, and an event each time the colour
    of a volume changes. */
module DiskEvents {
  import opened Wrappers

  datatype Color = Green | Yellow | Red

  function DiskColor(used: int, size: int, low: real, high: real): Color {
    if used as real > high / 100.0 * size as real then Red
    else if used as real > low / 100.0 * size as real then Yellow
    else Green
  }

  type Name = string

  /** What is kept of a volume: `notified` is the colour of its last event. */
  datatype Volume = Volume(size: Option<int>, available: Option<int>, notified: Option<Color>)

  /** One volume of a report.  An agent without a display name sends no events; a report may
      lack the sizes. */
  datatype Reading = Reading(name: Name, named: bool, low: real, high: real, size: Option<int>, available: Option<int>)

  datatype Event = Event(name: Name, color: Color)

  /** In the course of an update: the rows as the session sees them, and as they are stored. */
  datatype State = State(volumes: map<Name, Volume>, stored: map<Name, Volume>, events: seq<Event>)

  /** Between updates everything is stored. */
  function AtRest(stored: map<Name, Volume>, events: seq<Event>): State { State(stored, stored, events) }

  predicate Complete(r: Reading) { r.named && r.size.Some? && r.available.Some? }

  function ColorOf(r: Reading): Color
    requires Complete(r)
  {
    DiskColor(r.size.value - r.available.value, r.size.value, r.low, r.high)
  }

  function OrElse(a: Option<int>, b: Option<int>): Option<int> { if a.Some? then a else b }

  /** The volume's row after the report, before any event. */
  function Merged(volumes: map<Name, Volume>, r: Reading): Volume {
    if r.name in volumes then
      var v := volumes[r.name];
      v.(size := OrElse(r.size, v.size), available := OrElse(r.available, v.available))
    else Volume(r.size, r.available, None)
  }

  /** Green after nothing is no news. */
  predicate IsNews(color: Color, notified: Option<Color>) {
    Some(color) != notified && ((color.Green? && notified.Some?) || !color.Green?)
  }

  /** The event of a volume of size zero fails, since its percentage is computed. */
  predicate Fails(volumes: map<Name, Volume>, r: Reading) {
    Complete(r) && r.size.value == 0 && IsNews(ColorOf(r), Merged(volumes, r).notified)
  }

  predicate Sends(volumes: map<Name, Volume>, r: Reading) {
    Complete(r) && IsNews(ColorOf(r), Merged(volumes, r).notified)
  }

  /** Sending an event stores it, and with it whatever the session has changed so far; but a
      new volume's row is not in the session yet, and the event's colour not in its row. */
  function StoredWith(volumes: map<Name, Volume>, r: Reading): map<Name, Volume> {
    if r.name in volumes then volumes[r.name := Merged(volumes, r)] else volumes
  }

  function Step(s: State, r: Reading): State {
    var v := Merged(s.volumes, r);
    if Sends(s.volumes, r) then
      State(s.volumes[r.name := v.(notified := Some(ColorOf(r)))], StoredWith(s.volumes, r),
            s.events + [Event(r.name, ColorOf(r))])
    else s.(volumes := s.volumes[r.name := v])
  }

  function Run(s: State, readings: seq<Reading>): State {
    if readings == [] then s else Step(Run(s, readings[..|readings| - 1]), readings[|readings| - 1])
  }

  lemma RunNone(s: State, readings: seq<Reading>)
    ensures Run(s, readings[..0]) == s
  {
  }

  lemma RunOn(s: State, readings: seq<Reading>, n: nat)
    requires n < |readings|
    ensures Run(s, readings[..n + 1]) == Step(Run(s, readings[..n]), readings[n])
  {
    assert readings[..n + 1][..n] == readings[..n];
  }

  class AgentVolumes {
    var volumes: map<Name, Volume>    // the rows stored
    var events: seq<Event>

    function Value(): State
      reads this
    {
      AtRest(volumes, events)
    }

    constructor ()
      ensures Value() == AtRest(map[], [])
    {
      volumes, events := map[], [];
    }

    /** `update_agent_pinfo_vols`, with the commits of `gen_disk_event`.  A failure ends the
        thread's session, and what it has not stored is lost. */
    method Update(report: seq<Reading>) returns (ok: bool, done: nat)
      modifies this
      ensures done <= |report| && events == Run(old(Value()), report[..done]).events
      ensures forall i :: 0 <= i < done ==> !Fails(Run(old(Value()), report[..i]).volumes, report[i])
      ensures ok ==> done == |report| && volumes == Run(old(Value()), report).volumes
      ensures !ok ==> done < |report| && Fails(Run(old(Value()), report[..done]).volumes, report[done])
      ensures !ok ==> volumes == Run(old(Value()), report[..done]).stored
    {
      hide Run, DiskColor;
      var pending := volumes;
      done := 0;
      RunNone(old(Value()), report);
      while done < |report|
        invariant done <= |report| && State(pending, volumes, events) == Run(old(Value()), report[..done])
        invariant forall i :: 0 <= i < done ==> !Fails(Run(old(Value()), report[..i]).volumes, report[i])
      {
        var r := report[done];
        RunOn(old(Value()), report, done);
        var entry := if r.name in pending then pending[r.name] else Volume(None, None, None);
        if r.size.Some? {
          entry := entry.(size := r.size);
        }
        if r.available.Some? {
          entry := entry.(available := r.available);
        }
        assert entry == Merged(pending, r);
        if r.name in pending {
          pending := pending[r.name := entry];
        }
        if r.named && r.size.Some? && r.available.Some? {
          var color := DiskColor(entry.size.value - entry.available.value, entry.size.value, r.low, r.high);
          if Some(color) != entry.notified && ((color.Green? && entry.notified.Some?) || !color.Green?) {
            if entry.size.value == 0 {
              return false, done;
            }
            events, volumes := events + [Event(r.name, color)], pending;
            entry := entry.(notified := Some(color));
          }
        }
        pending := pending[r.name := entry];
        done := done + 1;
      }
      assert report[..|report|] == report;
      volumes := pending;
      return true, done;
    }
  }

  // ---------------------------------------------------------------- events are changes of colour

  /** The colours that differ from the one before, the first from `last`. */
  function Changes(last: Color, colors: seq<Color>): seq<Color>
    decreases |colors|
  {
    if colors == [] then []
    else if colors[0] == last then Changes(last, colors[1..])
    else [colors[0]] + Changes(colors[0], colors[1..])
  }

  function Last(color: Color, colors: seq<Color>): Color { if colors == [] then color else colors[|colors| - 1] }

  /** The colours that the complete reports give a volume. */
  function ColorsOf(readings: seq<Reading>, name: Name): seq<Color> {
    if readings == [] then []
    else
      var r := readings[|readings| - 1];
      ColorsOf(readings[..|readings| - 1], name)
      + if r.name == name && r.named && r.size.Some? && r.available.Some? then [ColorOf(r)] else []
  }

  function EventsOf(events: seq<Event>, name: Name): seq<Color> {
    if events == [] then []
    else
      var e := events[|events| - 1];
      EventsOf(events[..|events| - 1], name) + if e.name == name then [e.color] else []
  }

  lemma {:induction false} ChangesAppend(last: Color, colors: seq<Color>, c: Color)
    ensures Changes(last, colors + [c]) == Changes(last, colors) + if c == Last(last, colors) then [] else [c]
    decreases |colors|
  {
    if colors != [] {
      assert (colors + [c])[1..] == colors[1..] + [c];
      ChangesAppend(colors[0], colors[1..], c);
    }
  }

  function Shown(volumes: map<Name, Volume>, name: Name): Color {
    if name in volumes && volumes[name].notified.Some? then volumes[name].notified.value else Green
  }

  lemma EventsOn(events: seq<Event>, e: Event, name: Name)
    ensures EventsOf(events + [e], name) == EventsOf(events, name) + if e.name == name then [e.color] else []
  {
    assert (events + [e])[..|events|] == events;
  }

  /** One reading: an event when its colour is not the one shown. */
  lemma StepFor(s: State, r: Reading, name: Name)
    ensures var color := if r.name == name && Complete(r) then ColorOf(r) else Shown(s.volumes, name);
      && Shown(Step(s, r).volumes, name) == color
      && EventsOf(Step(s, r).events, name)
         == EventsOf(s.events, name) + if color != Shown(s.volumes, name) then [color] else []
  {
    hide ColorOf, EventsOf, StoredWith;
    if Complete(r) {
      EventsOn(s.events, Event(r.name, ColorOf(r)), name);
    }
  }

  /** For each volume, in every run of reports: the events are the colours of the complete
      reports, with green assumed before the first and repeats dropped. */
  lemma {:induction false} EventsAreChanges(readings: seq<Reading>, name: Name)
    ensures var s := Run(AtRest(map[], []), readings);
      && EventsOf(s.events, name) == Changes(Green, ColorsOf(readings, name))
      && Shown(s.volumes, name) == Last(Green, ColorsOf(readings, name))
  {
    if readings != [] {
      var front, r := readings[..|readings| - 1], readings[|readings| - 1];
      EventsAreChanges(front, name);
      StepFor(Run(AtRest(map[], []), front), r, name);
      hide Step, Shown, ColorOf, Changes;
      assert !(r.name == name && Complete(r)) ==> ColorsOf(readings, name) == ColorsOf(front, name);
      if r.name == name && Complete(r) {
        ChangesAppend(Green, ColorsOf(front, name), ColorOf(r));
      }
    }
  }

  /** How many readings there are up to the last one that sends an event. */
  function UpToEvent(s: State, readings: seq<Reading>): (n: nat)
    ensures n <= |readings|
  {
    if readings == [] then 0
    else
      var front, r := readings[..|readings| - 1], readings[|readings| - 1];
      if Sends(Run(s, front).volumes, r) then |readings| else UpToEvent(s, front)
  }

  /** In the course of an update, what is stored is what was read up to the last event sent. */
  lemma {:induction false} StoredUpToEvent(s: State, readings: seq<Reading>)
    ensures var n := UpToEvent(s, readings);
      && (n == 0 <==> Run(s, readings).events == s.events) && |s.events| <= |Run(s, readings).events|
      && Run(s, readings).stored
         == if n == 0 then s.stored else StoredWith(Run(s, readings[..n - 1]).volumes, readings[n - 1])
  {
    if readings != [] {
      var front := readings[..|readings| - 1];
      StoredUpToEvent(s, front);
      var n := UpToEvent(s, front);
      assert n > 0 ==> readings[..n - 1] == front[..n - 1];
      hide Sends, StoredWith, Merged;
    }
  }

  /** With an event, everything is stored but the event's own colour. */
  lemma StoredBy(s: State, r: Reading, name: Name)
    requires Sends(s.volumes, r)
    ensures Shown(Step(s, r).stored, name) == Shown(s.volumes, name)
    ensures Shown(Step(s, r).volumes, name) == if name == r.name then ColorOf(r) else Shown(s.volumes, name)
    ensures ColorOf(r) != Shown(s.volumes, r.name)
    ensures forall again :: Complete(again) && Event(again.name, ColorOf(again)) == Event(r.name, ColorOf(r))
              ==> Sends(Step(s, r).stored, again)
  {
    hide DiskColor;
  }

  lemma StoredWithout(s: State, r: Reading, name: Name)
    requires !Sends(s.volumes, r)
    ensures Step(s, r).stored == s.stored && Step(s, r).events == s.events
    ensures Shown(Step(s, r).volumes, name) == Shown(s.volumes, name)
  {
    hide DiskColor;
  }

  /** What a failure leaves, after `readings` of a report.  The stored colour of a volume is that
      of its last event, except for the volume of the last event sent: its row still shows the
      colour before, and the next reading of that colour sends the same event again. */
  lemma {:induction false} Survives(stored: map<Name, Volume>, events: seq<Event>, readings: seq<Reading>, name: Name)
    ensures var s := Run(AtRest(stored, events), readings);
      && |events| <= |s.events| && s.events[..|events|] == events
      && (Shown(s.stored, name) == Shown(s.volumes, name)
          <==> |s.events| == |events| || s.events[|s.events| - 1].name != name)
    ensures var s := Run(AtRest(stored, events), readings);
      |s.events| > |events| ==>
        forall r :: Complete(r) && Event(r.name, ColorOf(r)) == s.events[|s.events| - 1] ==> Sends(s.stored, r)
  {
    if readings != [] {
      var front, r := readings[..|readings| - 1], readings[|readings| - 1];
      var s := Run(AtRest(stored, events), front);
      Survives(stored, events, front, name);
      if Sends(s.volumes, r) {
        StoredBy(s, r, name);
        assert (s.events + [Event(r.name, ColorOf(r))])[..|events|] == s.events[..|events|];
      } else {
        StoredWithout(s, r, name);
      }
      hide Shown, Sends, StoredWith, Merged;
    }
  }

  /** No colour comes twice in a row, and the first is not green. */
  lemma {:induction false} ChangesAlternate(last: Color, colors: seq<Color>, i: nat)
    requires i < |Changes(last, colors)|
    ensures Changes(last, colors)[i] != if i == 0 then last else Changes(last, colors)[i - 1]
    decreases |colors|
  {
    if colors[0] == last {
      ChangesAlternate(last, colors[1..], i);
    } else if i > 0 {
      ChangesAlternate(colors[0], colors[1..], i - 1);
    }
  }

  function Severity(c: Color): nat { match c case Green => 0 case Yellow => 1 case Red => 2 }

  /** The fuller a disk, the worse its colour. */
  lemma ColorIsMonotone(used: int, more: int, size: int, low: real, high: real)
    requires used <= more
    ensures Severity(DiskColor(used, size, low, high)) <= Severity(DiskColor(more, size, low, high))
  {
  }

  /** What makes an update fail: a volume of size zero, after an event of another colour. */
  lemma FailsIff(volumes: map<Name, Volume>, r: Reading)
    requires Complete(r) && r.size.value == 0 && r.available.value >= 0
    ensures Fails(volumes, r) <==> !Shown(volumes, r.name).Green?
  {
  }

  /** A disk is red above its upper limit, in percent of its size in use, yellow from there down
      to the lower one, and else green. */
  lemma ColorMeans(r: Reading)
    requires Complete(r) && r.size.value > 0
    ensures var percent := 100.0 * (r.size.value - r.available.value) as real / r.size.value as real;
      && (ColorOf(r) == Red <==> percent > r.high)
      && (ColorOf(r) == Yellow <==> r.low < percent <= r.high)
      && (ColorOf(r) == Green <==> percent <= r.low && percent <= r.high)
  {
    var used, size := (r.size.value - r.available.value) as real, r.size.value as real;
    Percent(used, size, r.low);
    Percent(used, size, r.high);
  }

  lemma Percent(used: real, size: real, limit: real)
    requires size > 0.0
    ensures used > limit / 100.0 * size <==> 100.0 * used / size > limit
  {
    var percent := 100.0 * used / size;
    assert percent * size == 100.0 * used;
    if percent > limit {
      assert percent * size > limit * size;
    } else {
      assert percent * size <= limit * size;
    }
    assert limit / 100.0 * size == limit * size / 100.0;
  }

  /** The last size and the last available space that the reports give for a volume, or else
      those of the row it had before. */
  function Reported(rows: map<Name, Volume>, readings: seq<Reading>, name: Name): (Option<int>, Option<int>) {
    if readings == [] then
      if name in rows then (rows[name].size, rows[name].available) else (None, None)
    else
      var (size, available), r := Reported(rows, readings[..|readings| - 1], name), readings[|readings| - 1];
      if r.name != name then (size, available)
      else (if r.size.Some? then r.size else size, if r.available.Some? then r.available else available)
  }

  ghost predicate Mentioned(readings: seq<Reading>, name: Name) {
    exists i :: 0 <= i < |readings| && readings[i].name == name
  }

  lemma MentionedOn(readings: seq<Reading>, name: Name)
    requires readings != []
    ensures Mentioned(readings, name)
      <==> Mentioned(readings[..|readings| - 1], name) || readings[|readings| - 1].name == name
  {
    var front := readings[..|readings| - 1];
    assert forall i :: 0 <= i < |front| ==> front[i] == readings[i];
  }

  /** In every run of reports, that is what the rows hold; a volume has a row once it has been
      reported. */
  lemma {:induction false} RowsAreReported(rows: map<Name, Volume>, events: seq<Event>, readings: seq<Reading>, name: Name)
    ensures var volumes := Run(AtRest(rows, events), readings).volumes;
      && (name in volumes <==> name in rows || Mentioned(readings, name))
      && Reported(rows, readings, name) == if name in volumes then (volumes[name].size, volumes[name].available) else (None, None)
  {
    if readings != [] {
      RowsAreReported(rows, events, readings[..|readings| - 1], name);
      MentionedOn(readings, name);
      hide Sends, ColorOf, StoredWith, Mentioned;
    }
  }

  lemma StoredSizes(volumes: map<Name, Volume>, r: Reading, name: Name)
    ensures var stored := StoredWith(volumes, r);
      && (name in stored <==> name in volumes)
      && (name in stored ==>
            && stored[name].size == (if name == r.name && r.size.Some? then r.size else volumes[name].size)
            && stored[name].available == (if name == r.name && r.available.Some? then r.available else volumes[name].available))
  {
  }

  lemma ReportedOn(rows: map<Name, Volume>, readings: seq<Reading>, n: nat, name: Name)
    requires 0 < n <= |readings|
    ensures var (size, available), r := Reported(rows, readings[..n - 1], name), readings[n - 1];
      Reported(rows, readings[..n], name)
        == (if name == r.name && r.size.Some? then r.size else size,
            if name == r.name && r.available.Some? then r.available else available)
  {
    assert readings[..n][..n - 1] == readings[..n - 1];
  }

  /** In the course of an update with an event, the stored rows hold what was reported up to that
      event, its own reading included; a new volume has a stored row if it was reported before. */
  lemma StoredRows(rows: map<Name, Volume>, events: seq<Event>, readings: seq<Reading>, name: Name)
    ensures var s, n := Run(AtRest(rows, events), readings), UpToEvent(AtRest(rows, events), readings);
      if n == 0 then s.stored == rows
      else
        && (name in s.stored <==> name in rows || Mentioned(readings[..n - 1], name))
        && (name in s.stored ==> (s.stored[name].size, s.stored[name].available) == Reported(rows, readings[..n], name))
  {
    hide Run, UpToEvent, Mentioned, Reported, StoredWith;
    var s0 := AtRest(rows, events);
    var n := UpToEvent(s0, readings);
    StoredUpToEvent(s0, readings);
    if n > 0 {
      RowsAreReported(rows, events, readings[..n - 1], name);
      ReportedOn(rows, readings, n, name);
      StoredSizes(Run(s0, readings[..n - 1]).volumes, readings[n - 1], name);
    }
  }
}
