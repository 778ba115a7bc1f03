/**
  The Slack alert outbox: spend milestones, the dedup of failure DMs, and an at-least-once
  delivery loop that survives failed posts and crashes at any await.
 */
module SlackOutbox {
  import opened Common
  import opened Text

  // ---------------------------------------------------------------- spend milestones

  /** The thresholds a total has reached: the first, then one every `repeat`. */
  function ExperimentMilestones(total: real, first: real, repeat: real): seq<real> {
    if total <= 0.0 || total < first then []
    else if repeat <= 0.0 then [first]
    else
      var count := ((total - first) / repeat).Floor + 1;
      if count <= 0 then [] else seq(count, i => Milestone(first, repeat, i))
  }

  function Milestone(first: real, repeat: real, i: int): real {
    first + repeat * (i as real)
  }

  lemma MilestoneOrder(first: real, repeat: real, i: int, j: int)
    requires repeat > 0.0 && i < j
    ensures Milestone(first, repeat, i) < Milestone(first, repeat, j)
  {
    assert repeat * (j as real - i as real) > 0.0;
    assert repeat * (j as real - i as real) == repeat * (j as real) - repeat * (i as real);
  }

  /** `q.Floor` is the largest multiple of `repeat` that still fits. */
  lemma FloorFits(room: real, repeat: real, i: int)
    requires repeat > 0.0
    ensures i <= (room / repeat).Floor <==> repeat * (i as real) <= room
  {
    var q := room / repeat;
    assert q * repeat == room;
    if i as real <= q {
      assert repeat * (q - i as real) >= 0.0;
      assert repeat * (q - i as real) == repeat * q - repeat * (i as real);
    } else {
      assert repeat * (i as real - q) > 0.0;
      assert repeat * (i as real - q) == repeat * (i as real) - repeat * q;
    }
  }

  /** The milestones of a total are exactly the values `first + i * repeat` it has reached, in order, each once. */
  lemma MilestonesAreThoseReached(total: real, first: real, repeat: real)
    requires repeat > 0.0
    ensures var ms := ExperimentMilestones(total, first, repeat);
            && (forall i: nat :: Milestone(first, repeat, i) in ms <==>
                  total > 0.0 && Milestone(first, repeat, i) <= total)
            && (forall m :: m in ms ==> exists i: nat :: m == Milestone(first, repeat, i))
            && (forall i, j :: 0 <= i < j < |ms| ==> ms[i] < ms[j])
  {
    var ms := ExperimentMilestones(total, first, repeat);
    forall i: nat
      ensures Milestone(first, repeat, i) in ms <==> total > 0.0 && Milestone(first, repeat, i) <= total
    {
      FloorFits(total - first, repeat, i);
      FloorFits(total - first, repeat, 0);
      if total > 0.0 && total >= first {
        if i < |ms| {
          assert ms[i] == Milestone(first, repeat, i);
        }
        if Milestone(first, repeat, i) in ms {
          var j :| 0 <= j < |ms| && ms[j] == Milestone(first, repeat, i);
          if i < j { MilestoneOrder(first, repeat, i, j); }
          if j < i { MilestoneOrder(first, repeat, j, i); }
        }
      } else if total > 0.0 {
        assert repeat * (i as real) >= 0.0;
      }
    }
    forall i, j | 0 <= i < j < |ms| ensures ms[i] < ms[j] {
      MilestoneOrder(first, repeat, i, j);
    }
    forall m | m in ms ensures exists i: nat :: m == Milestone(first, repeat, i) {
      var j :| 0 <= j < |ms| && ms[j] == m;
    }
  }

  // ---------------------------------------------------------------- alerts and rows

  datatype Alert = Alert(
    key: string, text: string, recipient: Option<string>, clerk: Option<string>,
    mentions: seq<string>, dmOnly: bool, silent: bool)

  /** The alert key of a row; a DM is keyed per recipient. */
  datatype RowKey = Channel(key: string) | Dm(key: string, recipient: string)

  datatype Row = Row(
    payload: string, recipient: Option<string>, clerk: Option<string>, mentions: seq<string>, sent: bool)

  function Normalized(recipient: Option<string>): string {
    Lower(Strip(if recipient.Some? then recipient.value else ""))
  }

  /** The (key, recipient) an alert is deduplicated on. */
  function DedupKey(a: Alert): (string, string) {
    (a.key, Normalized(a.recipient))
  }

  function DedupKeys(alerts: seq<Alert>): set<(string, string)> {
    set a | a in alerts :: DedupKey(a)
  }

  /** The first alert of each (key, recipient), in order. */
  function FirstOfEach(alerts: seq<Alert>): seq<Alert> {
    if alerts == [] then []
    else
      var before, a := alerts[..|alerts| - 1], alerts[|alerts| - 1];
      FirstOfEach(before) + (if DedupKey(a) in DedupKeys(before) then [] else [a])
  }

  lemma DedupKeysGrow(before: seq<Alert>, a: Alert)
    ensures DedupKeys(before + [a]) == DedupKeys(before) + {DedupKey(a)}
  {
    assert a in before + [a];
    forall b | b in before + [a] ensures b in before || b == a {}
    forall b | b in before ensures b in before + [a] {}
  }

  ghost predicate NoTwoAlike(alerts: seq<Alert>) {
    forall i, j :: 0 <= i < j < |alerts| ==> DedupKey(alerts[i]) != DedupKey(alerts[j])
  }

  lemma OneMoreKept(kept: seq<Alert>, a: Alert)
    requires NoTwoAlike(kept)
    ensures DedupKeys(kept + [a]) == DedupKeys(kept) + {DedupKey(a)}
    ensures DedupKey(a) !in DedupKeys(kept) ==> NoTwoAlike(kept + [a])
  {
    DedupKeysGrow(kept, a);
    forall i | 0 <= i < |kept| ensures DedupKey(kept[i]) in DedupKeys(kept) {}
  }

  /** No (key, recipient) is lost, and none is alerted twice. */
  lemma {:induction false} FirstOfEachIsDistinct(alerts: seq<Alert>)
    ensures DedupKeys(FirstOfEach(alerts)) == DedupKeys(alerts)
    ensures NoTwoAlike(FirstOfEach(alerts))
  {
    if alerts != [] {
      var before, a := alerts[..|alerts| - 1], alerts[|alerts| - 1];
      FirstOfEachIsDistinct(before);
      assert alerts == before + [a];
      DedupKeysGrow(before, a);
      OneMoreKept(FirstOfEach(before), a);
    }
  }

  /** The alert kept for a (key, recipient) is the first with it. */
  lemma {:induction false} FirstOfEachIsFirst(alerts: seq<Alert>, a: Alert)
    requires a in FirstOfEach(alerts)
    ensures exists i: nat :: FirstWithKey(alerts, i) && alerts[i] == a
  {
    var before := alerts[..|alerts| - 1];
    if a in FirstOfEach(before) {
      FirstOfEachIsFirst(before, a);
      var i: nat :| FirstWithKey(before, i) && before[i] == a;
      FirstStays(alerts, i);
    } else {
      NewKeyIsFirst(alerts);
    }
  }

  lemma FirstStays(alerts: seq<Alert>, i: nat)
    requires alerts != [] && FirstWithKey(alerts[..|alerts| - 1], i)
    ensures FirstWithKey(alerts, i) && alerts[i] == alerts[..|alerts| - 1][i]
  {
    forall j | 0 <= j < i ensures DedupKey(alerts[j]) != DedupKey(alerts[i]) {
      assert alerts[..|alerts| - 1][j] == alerts[j];
    }
  }

  lemma NewKeyIsFirst(alerts: seq<Alert>)
    requires alerts != [] && DedupKey(alerts[|alerts| - 1]) !in DedupKeys(alerts[..|alerts| - 1])
    ensures FirstWithKey(alerts, |alerts| - 1)
  {
    forall j | 0 <= j < |alerts| - 1 ensures DedupKey(alerts[j]) in DedupKeys(alerts[..|alerts| - 1]) {
      assert alerts[..|alerts| - 1][j] in alerts[..|alerts| - 1];
    }
  }

  ghost predicate FirstWithKey(alerts: seq<Alert>, i: nat) {
    i < |alerts| && forall j :: 0 <= j < i ==> DedupKey(alerts[j]) != DedupKey(alerts[i])
  }

  /** Failure DMs: dedup on (key, recipient), keeping the first. */
  method BuildFailureDms(candidates: seq<Alert>) returns (alerts: seq<Alert>)
    ensures alerts == FirstOfEach(candidates)
  {
    alerts := [];
    var seen: set<(string, string)> := {};
    for i := 0 to |candidates|
      invariant alerts == FirstOfEach(candidates[..i]) && seen == DedupKeys(candidates[..i])
    {
      assert candidates[..i + 1][..i] == candidates[..i];
      assert candidates[..i + 1] == candidates[..i] + [candidates[i]];
      DedupKeysGrow(candidates[..i], candidates[i]);
      var key := DedupKey(candidates[i]);
      if key !in seen {
        seen := seen + {key};
        alerts := alerts + [candidates[i]];
      }
    }
    assert candidates[..|candidates|] == candidates;
  }

  /** The row an alert is recorded as, when its delivery channel is configured. */
  function RowOf(a: Alert, channel: bool, dms: bool): Option<(RowKey, Row)> {
    if a.dmOnly then
      var recipient := Normalized(a.recipient);
      if !dms || recipient == "" then None
      else Some((Dm(a.key, recipient), Row(a.text, Some(recipient), a.clerk, [], a.silent)))
    else if channel then Some((Channel(a.key), Row(a.text, None, None, a.mentions, a.silent)))
    else None
  }

  /** The alert is recorded under this key: its channel is configured, and a DM has a recipient. */
  predicate RecordedUnder(a: Alert, channel: bool, dms: bool, k: RowKey) {
    match k
    case Channel(key) => !a.dmOnly && channel && key == a.key
    case Dm(key, recipient) =>
      && a.dmOnly && dms && key == a.key
      && a.recipient.Some? && recipient == Lower(Strip(a.recipient.value)) && recipient != ""
  }

  lemma RowOfKey(a: Alert, channel: bool, dms: bool, k: RowKey)
    ensures RowOf(a, channel, dms).Some? && RowOf(a, channel, dms).value.0 == k <==> RecordedUnder(a, channel, dms, k)
  {
    assert Lower(Strip("")) == "";
  }

  /** The outbox after recording alerts: an existing key is left alone, the first of a new key is stored. */
  function Recorded(rows: map<RowKey, Row>, alerts: seq<Alert>, channel: bool, dms: bool): map<RowKey, Row> {
    if alerts == [] then rows
    else
      RecordedOne(Recorded(rows, alerts[..|alerts| - 1], channel, dms), alerts[|alerts| - 1], channel, dms)
  }

  function RecordedOne(rows: map<RowKey, Row>, a: Alert, channel: bool, dms: bool): map<RowKey, Row> {
    match RowOf(a, channel, dms)
    case None => rows
    case Some((key, row)) => if key in rows then rows else rows[key := row]
  }

  /** Nothing recorded is rewritten, revived or lost. */
  ghost predicate Grows(before: map<RowKey, Row>, after: map<RowKey, Row>) {
    forall k :: k in before ==>
      k in after && after[k] == before[k].(sent := after[k].sent) && (before[k].sent ==> after[k].sent)
  }

  /** The first write of a key wins: no row already there is changed. */
  lemma {:induction false} RecordedKeeps(rows: map<RowKey, Row>, alerts: seq<Alert>, channel: bool, dms: bool)
    ensures forall k :: k in rows ==>
      k in Recorded(rows, alerts, channel, dms) && Recorded(rows, alerts, channel, dms)[k] == rows[k]
  {
    if alerts != [] {
      RecordedKeeps(rows, alerts[..|alerts| - 1], channel, dms);
    }
  }

  /** Alert `i` is the first to be recorded under key `k`. */
  ghost predicate FirstRecorded(alerts: seq<Alert>, channel: bool, dms: bool, k: RowKey, i: nat) {
    && i < |alerts| && RecordedUnder(alerts[i], channel, dms, k)
    && forall j :: 0 <= j < i ==> !RecordedUnder(alerts[j], channel, dms, k)
  }

  /** The row carries the alert's text and recipient, sent from birth exactly when it is silent. */
  ghost predicate IsRowOf(r: Row, a: Alert) {
    && r.payload == a.text && r.sent == a.silent
    && r.recipient == (if a.dmOnly && a.recipient.Some? then Some(Lower(Strip(a.recipient.value))) else None)
    && r.clerk == (if a.dmOnly then a.clerk else None) && r.mentions == (if a.dmOnly then [] else a.mentions)
  }

  /** A new key holds the row of the first alert recorded under it. */
  lemma {:induction false} RecordedIsFirst(
      rows: map<RowKey, Row>, alerts: seq<Alert>, channel: bool, dms: bool, k: RowKey)
    requires k in Recorded(rows, alerts, channel, dms) && k !in rows
    ensures exists i: nat :: FirstRecorded(alerts, channel, dms, k, i) && IsRowOf(Recorded(rows, alerts, channel, dms)[k], alerts[i])
  {
    var n := |alerts| - 1;
    var before := alerts[..n];
    if k in Recorded(rows, before, channel, dms) {
      RecordedIsFirst(rows, before, channel, dms, k);
      var i: nat :| FirstRecorded(before, channel, dms, k, i) && IsRowOf(Recorded(rows, before, channel, dms)[k], before[i]);
      FirstRecordedStays(alerts, channel, dms, k, i);
    } else {
      NotRecordedBefore(rows, before, channel, dms, k);
      RowOfKey(alerts[n], channel, dms, k);
      assert forall j :: 0 <= j < n ==> alerts[j] == before[j];
      assert FirstRecorded(alerts, channel, dms, k, n);
    }
  }

  lemma FirstRecordedStays(alerts: seq<Alert>, channel: bool, dms: bool, k: RowKey, i: nat)
    requires alerts != [] && FirstRecorded(alerts[..|alerts| - 1], channel, dms, k, i)
    ensures FirstRecorded(alerts, channel, dms, k, i)
  {
    assert forall j :: 0 <= j <= i ==> alerts[j] == alerts[..|alerts| - 1][j];
  }

  lemma NotRecordedBefore(rows: map<RowKey, Row>, alerts: seq<Alert>, channel: bool, dms: bool, k: RowKey)
    requires k !in Recorded(rows, alerts, channel, dms)
    ensures forall j :: 0 <= j < |alerts| ==> !RecordedUnder(alerts[j], channel, dms, k)
  {
    RecordedKeys(rows, alerts, channel, dms, k);
    forall j | 0 <= j < |alerts| ensures !RecordedUnder(alerts[j], channel, dms, k) {
      assert alerts[j] in alerts;
    }
  }

  /** Two DMs share an outbox row exactly when the dedup of one run takes them for one; a channel alert never shares it. */
  lemma DedupAgreesWithOutbox(a: Alert, b: Alert, channel: bool, dms: bool)
    requires RowOf(a, channel, dms).Some? && RowOf(b, channel, dms).Some? && a.dmOnly
    ensures RowOf(a, channel, dms).value.0 == RowOf(b, channel, dms).value.0 <==> b.dmOnly && DedupKey(a) == DedupKey(b)
  {
  }

  /** The keys recorded are those of the outbox and of the alerts whose channel is configured. */
  lemma {:induction false} RecordedKeys(
      rows: map<RowKey, Row>, alerts: seq<Alert>, channel: bool, dms: bool, k: RowKey)
    ensures k in Recorded(rows, alerts, channel, dms) <==>
      k in rows || exists a :: a in alerts && RecordedUnder(a, channel, dms, k)
  {
    if alerts != [] {
      var last := alerts[|alerts| - 1];
      RowOfKey(last, channel, dms, k);
      RecordedKeys(rows, alerts[..|alerts| - 1], channel, dms, k);
      assert alerts == alerts[..|alerts| - 1] + [last];
      assert last in alerts;
      forall a | a in alerts ensures a == last || a in alerts[..|alerts| - 1] {}
    }
  }

  // ---------------------------------------------------------------- a rolling total over many ticks

  function MilestoneAlerts(ms: seq<real>, key: real -> string, owner: string): (r: seq<Alert>)
    ensures |r| == |ms|
    ensures forall i :: 0 <= i < |ms| ==> r[i] == Alert(key(ms[i]), "", Some(owner), None, [], true, false)
  {
    if ms == [] then []
    else [Alert(key(ms[0]), "", Some(owner), None, [], true, false)] + MilestoneAlerts(ms[1..], key, owner)
  }

  /** The outbox after ticks that saw these rolling totals of one experiment. */
  function RecordTotals(
      rows: map<RowKey, Row>, totals: seq<real>, first: real, repeat: real, key: real -> string, owner: string)
    : map<RowKey, Row>
  {
    if totals == [] then rows
    else Recorded(RecordTotals(rows, totals[..|totals| - 1], first, repeat, key, owner),
                  MilestoneAlerts(ExperimentMilestones(totals[|totals| - 1], first, repeat), key, owner),
                  false, true)
  }

  /** Alert keys tell milestones apart. */
  ghost predicate KeysTellApart(key: real -> string, first: real, repeat: real) {
    forall i: nat, j: nat :: key(Milestone(first, repeat, i)) == key(Milestone(first, repeat, j)) ==> i == j
  }

  ghost predicate SomeTickReached(totals: seq<real>, m: real) {
    exists t :: t in totals && t > 0.0 && m <= t
  }

  lemma SomeTickReachedLast(before: seq<real>, last: real, m: real)
    ensures SomeTickReached(before + [last], m) <==> SomeTickReached(before, m) || (last > 0.0 && m <= last)
  {
    assert last in before + [last];
    forall t | t in before + [last] ensures t in before || t == last {}
    forall t | t in before ensures t in before + [last] {}
  }

  /** However the total rises and falls, a milestone gets its one row just when some tick reached it. */
  lemma {:induction false} RollingTotals(
      totals: seq<real>, first: real, repeat: real, key: real -> string, owner: string, i: nat)
    requires repeat > 0.0 && KeysTellApart(key, first, repeat) && Normalized(Some(owner)) != ""
    ensures Dm(key(Milestone(first, repeat, i)), Normalized(Some(owner)))
              in RecordTotals(map[], totals, first, repeat, key, owner)
            <==> SomeTickReached(totals, Milestone(first, repeat, i))
  {
    if totals != [] {
      var before, last := totals[..|totals| - 1], totals[|totals| - 1];
      RollingTotals(before, first, repeat, key, owner, i);
      assert totals == before + [last];
      NextTotal(RecordTotals(map[], before, first, repeat, key, owner), before, last, first, repeat, key, owner, i);
    }
  }

  lemma NextTotal(
      rows: map<RowKey, Row>, before: seq<real>, last: real, first: real, repeat: real, key: real -> string, owner: string, i: nat)
    requires repeat > 0.0 && KeysTellApart(key, first, repeat) && Normalized(Some(owner)) != ""
    requires var k := Dm(key(Milestone(first, repeat, i)), Normalized(Some(owner)));
             k in rows <==> SomeTickReached(before, Milestone(first, repeat, i))
    ensures var k := Dm(key(Milestone(first, repeat, i)), Normalized(Some(owner)));
            var alerts := MilestoneAlerts(ExperimentMilestones(last, first, repeat), key, owner);
            k in Recorded(rows, alerts, false, true) <==> SomeTickReached(before + [last], Milestone(first, repeat, i))
  {
    SomeTickReachedLast(before, last, Milestone(first, repeat, i));
    TickRecords(rows, last, first, repeat, key, owner, i);
  }

  lemma TickRecords(
      rows: map<RowKey, Row>, total: real, first: real, repeat: real, key: real -> string, owner: string, i: nat)
    requires repeat > 0.0 && KeysTellApart(key, first, repeat) && Normalized(Some(owner)) != ""
    ensures var k := Dm(key(Milestone(first, repeat, i)), Normalized(Some(owner)));
            var alerts := MilestoneAlerts(ExperimentMilestones(total, first, repeat), key, owner);
            k in Recorded(rows, alerts, false, true) <==>
              k in rows || (total > 0.0 && Milestone(first, repeat, i) <= total)
  {
    var k := Dm(key(Milestone(first, repeat, i)), Normalized(Some(owner)));
    var ms := ExperimentMilestones(total, first, repeat);
    var alerts := MilestoneAlerts(ms, key, owner);
    RecordedKeys(rows, alerts, false, true, k);
    MilestonesAreThoseReached(total, first, repeat);
    MilestoneRows(ms, first, repeat, key, owner, i);
  }

  /** The alerts of a list of milestones hold a row for milestone i just when i is in the list. */
  lemma MilestoneRows(ms: seq<real>, first: real, repeat: real, key: real -> string, owner: string, i: nat)
    requires KeysTellApart(key, first, repeat) && Normalized(Some(owner)) != ""
    requires forall m :: m in ms ==> exists j: nat :: m == Milestone(first, repeat, j)
    ensures var k := Dm(key(Milestone(first, repeat, i)), Normalized(Some(owner)));
            var alerts := MilestoneAlerts(ms, key, owner);
            Milestone(first, repeat, i) in ms <==>
              exists a :: a in alerts && RowOf(a, false, true).Some? && RowOf(a, false, true).value.0 == k
  {
    var m := Milestone(first, repeat, i);
    var k := Dm(key(m), Normalized(Some(owner)));
    var alerts := MilestoneAlerts(ms, key, owner);
    if m in ms {
      var n :| 0 <= n < |ms| && ms[n] == m;
      assert alerts[n] in alerts;
    }
    if a :| a in alerts && RowOf(a, false, true).Some? && RowOf(a, false, true).value.0 == k {
      var n :| 0 <= n < |ms| && alerts[n] == a;
      assert ms[n] in ms;
      var j: nat :| ms[n] == Milestone(first, repeat, j);
      assert key(Milestone(first, repeat, j)) == key(m);
    }
  }

  // ---------------------------------------------------------------- the outbox

  /** Why a row counts as sent. */
  datatype Reason = BornSilent | NoPayload | Posted | NoAccount

  datatype Lookup = Found(id: string) | Absent | LookupRaised

  datatype Attempted = Skipped | FailedPost | Settled(reason: Reason)

  /** A delivered message: to one account or, without one, to the channel; the accounts it mentions first. */
  datatype Message = Message(key: RowKey, to: Option<string>, mentioned: seq<string>, payload: string)

  /** The cache of a run holds exactly what its lookups have answered. */
  ghost predicate Tells(cache: map<string, Option<string>>, heard: map<string, Lookup>) {
    && cache.Keys == heard.Keys
    && forall e :: e in cache ==> heard[e] == if cache[e].Some? then Found(cache[e].value) else Absent
  }

  /** What was heard stays heard. */
  ghost predicate HeardMore(a: map<string, Lookup>, b: map<string, Lookup>) {
    forall e :: e in a ==> e in b && b[e] == a[e]
  }

  /** A row for one address. */
  predicate IsDm(row: Row) {
    row.recipient.Some? && row.recipient.value != ""
  }

  /** A DM went to the account that the lookup of its address found; a channel message mentions only found accounts. */
  ghost predicate Addressed(rows: map<RowKey, Row>, heard: map<string, Lookup>, m: Message) {
    && m.key in rows && m.payload == rows[m.key].payload && m.payload != ""
    && if IsDm(rows[m.key]) then
         && m.to.Some? && m.mentioned == []
         && rows[m.key].recipient.value in heard && heard[rows[m.key].recipient.value] == Found(m.to.value)
       else
         m.to.None? && forall id :: id in m.mentioned ==>
           exists e :: e in rows[m.key].mentions && e in heard && heard[e] == Found(id)
  }

  lemma AddressedStays(rows: map<RowKey, Row>, heard: map<string, Lookup>, rows': map<RowKey, Row>, heard': map<string, Lookup>, m: Message)
    requires Addressed(rows, heard, m) && Grows(rows, rows') && HeardMore(heard, heard')
    ensures Addressed(rows', heard', m)
  {
    if !IsDm(rows[m.key]) {
      forall id | id in m.mentioned ensures exists e :: e in rows'[m.key].mentions && e in heard' && heard'[e] == Found(id) {
        var e :| e in rows[m.key].mentions && e in heard && heard[e] == Found(id);
      }
    }
  }

  /** The messages from position `n` on are addressed as this run's lookups said. */
  ghost predicate AllAddressed(rows: map<RowKey, Row>, heard: map<string, Lookup>, messages: seq<Message>, n: nat) {
    n <= |messages| && forall i :: n <= i < |messages| ==> Addressed(rows, heard, messages[i])
  }

  lemma AllAddressedStay(rows: map<RowKey, Row>, heard: map<string, Lookup>, messages: seq<Message>, n: nat,
      rows': map<RowKey, Row>, heard': map<string, Lookup>, messages': seq<Message>)
    requires AllAddressed(rows, heard, messages, n) && Grows(rows, rows') && HeardMore(heard, heard')
    requires messages <= messages' && forall i :: |messages| <= i < |messages'| ==> Addressed(rows', heard', messages'[i])
    ensures AllAddressed(rows', heard', messages', n)
  {
    forall i | n <= i < |messages'| ensures Addressed(rows', heard', messages'[i]) {
      if i < |messages| {
        AddressedStays(rows, heard, rows', heard', messages[i]);
      }
    }
  }

  /** One scheduled run: what qualified, which channels are configured, and whether the process may die in it. */
  datatype Tick = Tick(alerts: seq<Alert>, webhook: bool, bot: bool, mayCrash: bool)

  function CountTrue(flags: seq<bool>): nat {
    if flags == [] then 0 else CountTrue(flags[..|flags| - 1]) + (if flags[|flags| - 1] then 1 else 0)
  }

  /** The settled row `k` has its reason: no payload, a successful post since `posted`, or a lookup of this run that found no account. */
  ghost predicate Justified(
      rows: map<RowKey, Row>, posts: map<RowKey, nat>, reasons: map<RowKey, Reason>,
      k: RowKey, posted: nat, heard: map<string, Lookup>)
  {
    && k in rows && k in posts && k in reasons
    && match reasons[k]
       case BornSilent => false
       case NoPayload => rows[k].payload == ""
       case Posted => posts[k] > posted
       case NoAccount => IsDm(rows[k]) && rows[k].recipient.value in heard && heard[rows[k].recipient.value] == Absent
  }

  lemma JustifiedStays(
      rows: map<RowKey, Row>, posts: map<RowKey, nat>, reasons: map<RowKey, Reason>,
      rows': map<RowKey, Row>, posts': map<RowKey, nat>, reasons': map<RowKey, Reason>,
      k: RowKey, posted: nat, heard: map<string, Lookup>, heard': map<string, Lookup>)
    requires Justified(rows, posts, reasons, k, posted, heard)
    requires k in rows' && rows'[k] == rows[k] && k in posts' && posts'[k] == posts[k]
    requires k in reasons' && reasons'[k] == reasons[k]
    requires HeardMore(heard, heard')
    ensures Justified(rows', posts', reasons', k, posted, heard')
  {
  }

  /** Every row settled since `rows0` has its reason. */
  ghost predicate AllJustified(
      rows0: map<RowKey, Row>, posts0: map<RowKey, nat>,
      rows: map<RowKey, Row>, posts: map<RowKey, nat>, reasons: map<RowKey, Reason>, heard: map<string, Lookup>)
  {
    forall k :: k in rows0 && !rows0[k].sent && k in rows && rows[k].sent ==>
      k in posts0 && Justified(rows, posts, reasons, k, posts0[k], heard)
  }

  /** A DM with a text became sent, and this run's lookup found an account for its address. */
  ghost predicate SettledWithAccount(rows0: map<RowKey, Row>, rows: map<RowKey, Row>, heard: map<string, Lookup>, k: RowKey) {
    && k in rows0 && !rows0[k].sent && k in rows && rows[k].sent && rows[k].payload != ""
    && IsDm(rows[k]) && rows[k].recipient.value in heard && heard[rows[k].recipient.value].Found?
  }

  /** A row whose address has an account becomes sent only by a post. */
  lemma FoundIsPosted(
      rows0: map<RowKey, Row>, posts0: map<RowKey, nat>,
      rows: map<RowKey, Row>, posts: map<RowKey, nat>, reasons: map<RowKey, Reason>, heard: map<string, Lookup>, k: RowKey)
    requires AllJustified(rows0, posts0, rows, posts, reasons, heard) && SettledWithAccount(rows0, rows, heard, k)
    ensures k in posts0 && k in posts && posts[k] > posts0[k]
  {
    assert Justified(rows, posts, reasons, k, posts0[k], heard);
  }

  /** Exactly the rows not sent yet, each once. */
  ghost predicate Pending(keys: seq<RowKey>, rows: map<RowKey, Row>) {
    && (forall j :: 0 <= j < |keys| ==> keys[j] in rows && !rows[keys[j]].sent)
    && (forall k :: k in rows && !rows[k].sent ==> k in keys)
    && (forall i, j :: 0 <= i < j < |keys| ==> keys[i] != keys[j])
  }

  /** The keys from position `i` on are as they were. */
  ghost predicate Untouched(
      keys: seq<RowKey>, i: nat, rows0: map<RowKey, Row>, posts0: map<RowKey, nat>,
      rows: map<RowKey, Row>, posts: map<RowKey, nat>)
  {
    forall j :: i <= j < |keys| ==>
      && keys[j] in rows0 && keys[j] in rows && rows[keys[j]] == rows0[keys[j]]
      && keys[j] in posts0 && keys[j] in posts && posts[keys[j]] == posts0[keys[j]]
  }

  lemma StillUntouched(
      keys: seq<RowKey>, i: nat, rows0: map<RowKey, Row>, posts0: map<RowKey, nat>,
      was: map<RowKey, Row>, posted: map<RowKey, nat>, rows: map<RowKey, Row>, posts: map<RowKey, nat>)
    requires i < |keys| && Untouched(keys, i, rows0, posts0, was, posted)
    requires forall a, b :: 0 <= a < b < |keys| ==> keys[a] != keys[b]
    requires rows == was || rows == was[keys[i] := was[keys[i]].(sent := true)]
    requires posts == posted || posts == posted[keys[i] := posted[keys[i]] + 1]
    ensures Untouched(keys, i + 1, rows0, posts0, rows, posts)
    ensures Grows(rows0, was) ==> Grows(rows0, rows)
  {
  }

  lemma StillJustified(
      rows0: map<RowKey, Row>, posts0: map<RowKey, nat>,
      was: map<RowKey, Row>, posted: map<RowKey, nat>, why: map<RowKey, Reason>, known: map<string, Lookup>,
      rows: map<RowKey, Row>, posts: map<RowKey, nat>, reasons: map<RowKey, Reason>, heard: map<string, Lookup>,
      key: RowKey)
    requires AllJustified(rows0, posts0, was, posted, why, known)
    requires key in was && key in posted && key in posts0 && posts0[key] == posted[key]
    requires rows == was || rows == was[key := was[key].(sent := true)]
    requires posts == posted || posts == posted[key := posted[key] + 1]
    requires forall k :: k in why ==> k in reasons && reasons[k] == why[k]
    requires HeardMore(known, heard)
    requires rows[key].sent ==> Justified(rows, posts, reasons, key, posted[key], heard)
    ensures AllJustified(rows0, posts0, rows, posts, reasons, heard)
  {
    forall k | k in rows0 && !rows0[k].sent && k in rows && rows[k].sent
      ensures k in posts0 && Justified(rows, posts, reasons, k, posts0[k], heard)
    {
      if k != key {
        JustifiedStays(was, posted, why, rows, posts, reasons, k, posts0[k], known, heard);
      }
    }
  }

  /** A row is posted at most once over the crashes, by its mark; it is marked for a reason that holds of it. */
  ghost predicate Accounted(rows: map<RowKey, Row>, posts: map<RowKey, nat>, crashes: nat, reasons: map<RowKey, Reason>) {
    && posts.Keys == rows.Keys
    && (forall k :: k in rows ==> posts[k] <= crashes + (if rows[k].sent then 1 else 0))
    && (forall k :: k in reasons <==> k in rows && rows[k].sent)
    && (forall k :: k in reasons ==>
          && (reasons[k].Posted? ==> posts[k] >= 1)
          && (reasons[k].NoPayload? ==> rows[k].payload == "")
          && (reasons[k].NoAccount? ==> rows[k].recipient.Some?))
  }

  /** Settling a row keeps that: it is posted and marked, or the crash in between is counted. */
  lemma StillAccounted(
      was: map<RowKey, Row>, posted: map<RowKey, nat>, crashed: nat, why: map<RowKey, Reason>, key: RowKey, reason: Reason,
      rows: map<RowKey, Row>, posts: map<RowKey, nat>, crashes: nat, reasons: map<RowKey, Reason>)
    requires Accounted(was, posted, crashed, why) && key in was && !was[key].sent && !reason.BornSilent?
    requires posts == if reason.Posted? then posted[key := posted[key] + 1] else posted
    requires (reason.NoPayload? ==> was[key].payload == "") && (reason.NoAccount? ==> was[key].recipient.Some?)
    requires || (rows == was[key := was[key].(sent := true)] && reasons == why[key := reason] && crashed <= crashes)
             || (rows == was && reasons == why && crashed < crashes)
    ensures Accounted(rows, posts, crashes, reasons)
  {
  }

  lemma OneMoreAddressed(
      was: map<RowKey, Row>, known: map<string, Lookup>, told: seq<Message>, n: nat,
      rows: map<RowKey, Row>, heard: map<string, Lookup>, messages: seq<Message>, key: RowKey)
    requires AllAddressed(was, known, told, n) && HeardMore(known, heard) && key in was
    requires rows == was || rows == was[key := was[key].(sent := true)]
    requires messages == told || exists m :: messages == told + [m] && Addressed(was, heard, m)
    ensures AllAddressed(rows, heard, messages, n)
  {
    assert Grows(was, rows);
    if messages != told {
      var m :| messages == told + [m] && Addressed(was, heard, m);
      AddressedStays(was, heard, rows, heard, m);
    }
    AllAddressedStay(was, known, told, n, rows, heard, messages);
  }

  class Outbox {
    var rows: map<RowKey, Row>
    // History, for the statements only: successful posts per row, crashed runs, and why rows were settled.
    ghost var posts: map<RowKey, nat>
    ghost var crashes: nat
    ghost var reasons: map<RowKey, Reason>
    // What was delivered, in order, and what the lookups of the present run have answered.
    ghost var messages: seq<Message>
    ghost var heard: map<string, Lookup>

    ghost predicate Valid()
      reads this
    {
      Accounted(rows, posts, crashes, reasons)
    }

    constructor ()
      ensures Valid() && rows == map[] && crashes == 0 && messages == []
    {
      rows, posts, crashes, reasons, messages, heard := map[], map[], 0, map[], [], map[];
    }

    /** Write one alert into the outbox, unless its key is already there. */
    method RecordAlert(a: Alert, channel: bool, dms: bool)
      requires Valid()
      modifies this`rows, this`posts, this`reasons
      ensures Valid() && rows == RecordedOne(old(rows), a, channel, dms)
      ensures forall k :: k in old(rows) ==> k in rows && posts[k] == old(posts[k])
    {
      match RowOf(a, channel, dms)
      case None =>
      case Some((key, row)) =>
        if key !in rows {
          rows := rows[key := row];
          posts := posts[key := 0];
          if row.sent {
            reasons := reasons[key := BornSilent];
          }
        }
    }

    /** Write each alert into the outbox; the first write of a key wins. */
    method RecordAlerts(alerts: seq<Alert>, channel: bool, dms: bool)
      requires Valid()
      modifies this`rows, this`posts, this`reasons
      ensures Valid() && rows == Recorded(old(rows), alerts, channel, dms)
      ensures Grows(old(rows), rows)
      ensures forall k :: k in old(rows) ==> posts[k] == old(posts[k])
    {
      for i := 0 to |alerts|
        invariant Valid() && rows == Recorded(old(rows), alerts[..i], channel, dms)
        invariant forall k :: k in old(rows) ==> k in rows && posts[k] == old(posts[k])
      {
        assert alerts[..i + 1][..i] == alerts[..i];
        RecordAlert(alerts[i], channel, dms);
      }
      assert alerts[..|alerts|] == alerts;
      RecordedKeeps(old(rows), alerts, channel, dms);
    }

    /** The pending rows, in some order. */
    method PendingKeys() returns (keys: seq<RowKey>)
      ensures Pending(keys, rows)
    {
      keys := [];
      var rest := set k | k in rows && !rows[k].sent;
      while rest != {}
        invariant forall k :: k in keys || k in rest <==> k in rows && !rows[k].sent
        invariant forall k :: k in rest ==> k !in keys
        invariant forall i, j :: 0 <= i < j < |keys| ==> keys[i] != keys[j]
      {
        var k :| k in rest;
        keys, rest := keys + [k], rest - {k};
      }
    }

    method MarkAlertSent(key: RowKey, ghost reason: Reason)
      requires key in rows
      modifies this`rows, this`reasons
      ensures rows == old(rows)[key := old(rows)[key].(sent := true)]
      ensures reasons == old(reasons)[key := reason]
    {
      rows := rows[key := rows[key].(sent := true)];
      reasons := reasons[key := reason];
    }

    /** A Slack or Clerk lookup of an address not settled in this run: found, settled as absent, or raising. */
    method LookUp(email: string) returns (r: Lookup)
      requires email !in heard
      modifies this`heard
      ensures heard == if r.LookupRaised? then old(heard) else old(heard)[email := r]
    {
      if * {
        var id: string := *;
        r := Found(id);
      } else if * {
        r := Absent;
      } else {
        r := LookupRaised;
      }
      if !r.LookupRaised? {
        heard := heard[email := r];
      }
    }

    /** Post the row's payload to an account or to the channel. */
    method Post(key: RowKey, to: Option<string>, mentioned: seq<string>) returns (ok: bool)
      requires key in posts && key in rows
      modifies this`posts, this`messages
      ensures posts == if ok then old(posts)[key := old(posts[key]) + 1] else old(posts)
      ensures messages == old(messages) + if ok then [Message(key, to, mentioned, rows[key].payload)] else []
    {
      ok := *;
      if ok {
        posts := posts[key := posts[key] + 1];
        messages := messages + [Message(key, to, mentioned, rows[key].payload)];
      }
    }

    /** The mentioned addresses that answered with an account, each with it; one whose lookup raises is dropped and left uncached. */
    method MentionPrefix(emails: seq<string>, cache: map<string, Option<string>>)
      returns (ids: seq<string>, newCache: map<string, Option<string>>)
      requires Tells(cache, heard)
      modifies this`heard
      ensures Tells(newCache, heard) && HeardMore(old(heard), heard)
      ensures forall e :: e in heard && e !in old(heard) ==> e in emails
      ensures forall id :: id in ids <==> exists e :: e in emails && e in heard && heard[e] == Found(id)
    {
      ids, newCache := [], cache;
      for i := 0 to |emails|
        invariant Tells(newCache, heard) && HeardMore(old(heard), heard)
        invariant forall e :: e in heard && e !in old(heard) ==> e in emails[..i]
        invariant forall id :: id in ids <==> exists e :: e in emails[..i] && e in heard && heard[e] == Found(id)
      {
        assert emails[..i + 1] == emails[..i] + [emails[i]];
        if emails[i] !in newCache {
          var found := LookUp(emails[i]);
          if found.LookupRaised? {
            continue;
          }
          newCache := newCache[emails[i] := if found.Found? then Some(found.id) else None];
        }
        if newCache[emails[i]].Some? {
          ids := ids + [newCache[emails[i]].value];
        }
      }
      assert emails[..|emails|] == emails;
    }

    /** What an attempt at row `key` did: a post to the right place, a settled "no account", or nothing. */
    twostate predicate Tried(key: RowKey, r: Attempted)
      requires key in rows && key in old(posts)
      reads this
    {
      && HeardMore(old(heard), heard)
      && posts == (if r == Settled(Posted) then old(posts)[key := old(posts)[key] + 1] else old(posts))
      && (r == Settled(Posted) ==> exists m :: messages == old(messages) + [m] && m.key == key && Addressed(rows, heard, m))
      && (r != Settled(Posted) ==> messages == old(messages))
      && (r.Settled? ==> r.reason.Posted? || r.reason.NoAccount?)
      && (r == Settled(NoAccount) ==>
            IsDm(rows[key]) && rows[key].recipient.value in heard && heard[rows[key].recipient.value] == Absent)
    }

    /** Try to deliver one pending row; an exception leaves it pending. */
    method DeliverRow(key: RowKey, webhook: bool, bot: bool, cache: map<string, Option<string>>)
      returns (r: Attempted, newCache: map<string, Option<string>>)
      requires key in rows && key in posts && rows[key].payload != "" && Tells(cache, heard)
      modifies this`posts, this`messages, this`heard
      ensures Tells(newCache, heard) && Tried(key, r)
    {
      newCache := cache;
      var row := rows[key];
      if row.recipient.Some? && row.recipient.value != "" {
        r, newCache := DeliverDm(key, row.recipient.value, bot, cache);
      } else {
        r, newCache := DeliverToChannel(key, webhook, bot, cache);
      }
    }

    method DeliverDm(key: RowKey, email: string, bot: bool, cache: map<string, Option<string>>)
      returns (r: Attempted, newCache: map<string, Option<string>>)
      requires key in rows && key in posts && rows[key].payload != "" && Tells(cache, heard)
      requires IsDm(rows[key]) && rows[key].recipient.value == email
      modifies this`posts, this`messages, this`heard
      ensures Tells(newCache, heard) && Tried(key, r)
    {
      newCache := cache;
      if !bot {
        return Skipped, newCache;
      }
      if email !in newCache {
        var found := LookUp(email);
        if found.LookupRaised? {
          return FailedPost, newCache;
        }
        newCache := newCache[email := if found.Found? then Some(found.id) else None];
      }
      if newCache[email].None? {
        return Settled(NoAccount), newCache;
      }
      var ok := Post(key, newCache[email], []);
      assert ok ==> Addressed(rows, heard, Message(key, newCache[email], [], rows[key].payload));
      return if ok then Settled(Posted) else FailedPost, newCache;
    }

    method DeliverToChannel(key: RowKey, webhook: bool, bot: bool, cache: map<string, Option<string>>)
      returns (r: Attempted, newCache: map<string, Option<string>>)
      requires key in rows && key in posts && rows[key].payload != "" && Tells(cache, heard)
      requires !IsDm(rows[key])
      modifies this`posts, this`messages, this`heard
      ensures Tells(newCache, heard) && Tried(key, r)
    {
      newCache := cache;
      if !webhook {
        return Skipped, newCache;
      }
      var ids: seq<string> := [];
      if bot && rows[key].mentions != [] {
        ids, newCache := MentionPrefix(rows[key].mentions, newCache);
      }
      var ok := Post(key, None, ids);
      assert ok ==> Addressed(rows, heard, Message(key, None, ids, rows[key].payload));
      return if ok then Settled(Posted) else FailedPost, newCache;
    }

    /** Mark a settled row, or crash before or after the mark lands. */
    method MarkOrCrash(key: RowKey, ghost reason: Reason, mayCrash: bool) returns (crashed: bool)
      requires key in rows
      modifies this`rows, this`reasons, this`crashes
      ensures crashes == old(crashes) + (if crashed then 1 else 0) && (crashed ==> mayCrash)
      ensures || (rows == old(rows)[key := old(rows)[key].(sent := true)] && reasons == old(reasons)[key := reason])
              || (crashed && rows == old(rows) && reasons == old(reasons))
    {
      crashed := false;
      var dies: bool := *;
      if mayCrash && dies {
        crashed := true;
        crashes := crashes + 1;
        if * {
          return;
        }
      }
      MarkAlertSent(key, reason);
    }

    /** One pending row: deliver and mark it, leave it pending, or crash. */
    method DeliverOne(key: RowKey, webhook: bool, bot: bool, mayCrash: bool, cache: map<string, Option<string>>)
      returns (crashed: bool, newCache: map<string, Option<string>>)
      requires Valid() && key in rows && !rows[key].sent && Tells(cache, heard)
      modifies this
      ensures Valid() && crashes == old(crashes) + (if crashed then 1 else 0) && (crashed ==> mayCrash)
      ensures rows == old(rows) || rows == old(rows)[key := old(rows)[key].(sent := true)]
      ensures posts == old(posts) || posts == old(posts)[key := old(posts)[key] + 1]
      ensures forall k :: k in old(reasons) ==> k in reasons && reasons[k] == old(reasons)[k]
      ensures Tells(newCache, heard) && HeardMore(old(heard), heard)
      ensures rows[key].sent ==> Justified(rows, posts, reasons, key, old(posts)[key], heard)
      ensures messages == old(messages)
              || exists m :: messages == old(messages) + [m] && m.key == key && Addressed(old(rows), heard, m)
    {
      crashed, newCache := false, cache;
      var dies: bool := *;
      if mayCrash && dies {
        crashed := true;
        crashes := crashes + 1;
        return;
      }
      ghost var was, posted, crashed0, why := rows, posts, crashes, reasons;
      var attempted := Settled(NoPayload);
      if rows[key].payload != "" {
        attempted, newCache := DeliverRow(key, webhook, bot, cache);
      }
      if attempted.Settled? {
        crashed := MarkOrCrash(key, attempted.reason, mayCrash);
        StillAccounted(was, posted, crashed0, why, key, attempted.reason, rows, posts, crashes, reasons);
      }
    }

    /** The next pending row; the reasons given so far keep holding. */
    method DeliverNext(
        pending: seq<RowKey>, i: nat, webhook: bool, bot: bool, mayCrash: bool, answers: map<string, Option<string>>,
        ghost rows0: map<RowKey, Row>, ghost posts0: map<RowKey, nat>, ghost sent0: nat)
      returns (crashed: bool, newAnswers: map<string, Option<string>>)
      requires Valid() && Grows(rows0, rows) && i < |pending| && Pending(pending, rows0) && Tells(answers, heard)
      requires Untouched(pending, i, rows0, posts0, rows, posts)
      requires AllJustified(rows0, posts0, rows, posts, reasons, heard) && AllAddressed(rows, heard, messages, sent0)
      modifies this
      ensures Valid() && Grows(rows0, rows) && rows.Keys == old(rows).Keys && Tells(newAnswers, heard)
      ensures crashes == old(crashes) + (if crashed then 1 else 0) && (crashed ==> mayCrash)
      ensures Untouched(pending, i + 1, rows0, posts0, rows, posts)
      ensures AllJustified(rows0, posts0, rows, posts, reasons, heard) && AllAddressed(rows, heard, messages, sent0)
      ensures old(messages) <= messages
    {
      var key := pending[i];
      ghost var was, posted, why, known, told := rows, posts, reasons, heard, messages;
      crashed, newAnswers := DeliverOne(key, webhook, bot, mayCrash, answers);
      StillUntouched(pending, i, rows0, posts0, was, posted, rows, posts);
      StillJustified(rows0, posts0, was, posted, why, known, rows, posts, reasons, heard, key);
      OneMoreAddressed(was, known, told, sent0, rows, heard, messages, key);
    }

    /**
      Post every pending row and mark it sent, or crash at some await.  A row is settled only
      for want of a payload, after a successful post, or because this run's lookup of its address
      found no account; a DM goes to the account the lookup found.
     */
    method DeliverPending(webhook: bool, bot: bool, mayCrash: bool) returns (crashed: bool)
      requires Valid()
      modifies this
      ensures Valid() && Grows(old(rows), rows) && rows.Keys == old(rows).Keys
      ensures crashes == old(crashes) + (if crashed then 1 else 0) && (crashed ==> mayCrash)
      ensures AllJustified(old(rows), old(posts), rows, posts, reasons, heard)
      ensures old(messages) <= messages && AllAddressed(rows, heard, messages, |old(messages)|)
      ensures forall k :: SettledWithAccount(old(rows), rows, heard, k) ==> k in old(posts) && posts[k] > old(posts)[k]
    {
      var answers: map<string, Option<string>> := map[];
      heard := map[];
      var pending := PendingKeys();
      crashed := false;
      ghost var rows0, posts0, sent0 := rows, posts, messages;
      assert Pending(pending, rows) && Untouched(pending, 0, rows, posts, rows, posts);
      for i := 0 to |pending|
        invariant Valid() && Grows(rows0, rows) && rows.Keys == rows0.Keys && Tells(answers, heard)
        invariant !crashed && crashes == old(crashes) && sent0 <= messages
        invariant Untouched(pending, i, rows0, posts0, rows, posts)
        invariant AllJustified(rows0, posts0, rows, posts, reasons, heard) && AllAddressed(rows, heard, messages, |sent0|)
      {
        crashed, answers := DeliverNext(pending, i, webhook, bot, mayCrash, answers, rows0, posts0, |sent0|);
        if crashed {
          break;
        }
      }
      forall k | SettledWithAccount(rows0, rows, heard, k) ensures k in posts0 && posts[k] > posts0[k] {
        FoundIsPosted(rows0, posts0, rows, posts, reasons, heard, k);
      }
    }

    /**
      Any number of scheduled runs.  A key's first payload and recipient never change, sent
      never reverts, and the successful posts of a row never exceed one plus the crashes: those
      before, and one for each run that crashed.
     */
    method Run(ticks: seq<Tick>) returns (crashed: seq<bool>)
      requires Valid()
      modifies this
      ensures Valid() && Grows(old(rows), rows)
      ensures |crashed| == |ticks| && forall i :: 0 <= i < |ticks| && crashed[i] ==> ticks[i].mayCrash
      ensures crashes == old(crashes) + CountTrue(crashed)
      ensures forall k :: k in rows ==> posts[k] <= 1 + old(crashes) + CountTrue(crashed)
    {
      crashed := [];
      for i := 0 to |ticks|
        invariant Valid() && Grows(old(rows), rows) && crashes == old(crashes) + CountTrue(crashed)
        invariant |crashed| == i && forall j :: 0 <= j < i && crashed[j] ==> ticks[j].mayCrash
      {
        ghost var was := rows;
        var died := RunOnce(ticks[i]);
        GrowsTrans(old(rows), was, rows);
        assert (crashed + [died])[..i] == crashed;
        crashed := crashed + [died];
      }
    }

    /** One scheduled run; without a channel it does nothing. */
    method RunOnce(t: Tick) returns (crashed: bool)
      requires Valid()
      modifies this
      ensures Valid() && Grows(old(rows), rows)
      ensures crashes == old(crashes) + (if crashed then 1 else 0) && (crashed ==> t.mayCrash)
      ensures if t.webhook || t.bot then RecordedThen(old(rows), t, rows)
              else rows == old(rows) && posts == old(posts) && messages == old(messages) && !crashed
      ensures old(messages) <= messages && AllAddressed(rows, heard, messages, |old(messages)|)
    {
      crashed := false;
      if t.webhook || t.bot {
        ghost var was := rows;
        RecordAlerts(t.alerts, t.webhook, t.bot);
        ghost var recorded := rows;
        crashed := DeliverPending(t.webhook, t.bot, t.mayCrash);
        GrowsTrans(was, recorded, rows);
      }
    }
  }

  /** The tick's alerts are recorded; after that rows are only marked sent. */
  ghost predicate RecordedThen(before: map<RowKey, Row>, t: Tick, now: map<RowKey, Row>) {
    var recorded := Recorded(before, t.alerts, t.webhook, t.bot);
    now.Keys == recorded.Keys && Grows(recorded, now)
  }

  lemma GrowsTrans(a: map<RowKey, Row>, b: map<RowKey, Row>, c: map<RowKey, Row>)
    requires Grows(a, b) && Grows(b, c)
    ensures Grows(a, c)
  {
  }
}
