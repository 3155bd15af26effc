/**
 * The server's shared state and its handlers: the three tables, the set of
 * connected stream subscribers with what each has been sent, the deposit
 * path shared by `POST /api/events` and the simulator, the cleaning action,
 * task creation and status updates, and the fan-out of change notifications.
 */
module Server {
  import opened Values
  import opened Bins
  import opened Tasks
  import opened Events

  /** A subscriber: one open response of `GET /api/stream`. */
  type ClientId = nat

  /** The summary a deposit answers with and broadcasts as `waste_event`. */
  datatype EventSummary = EventSummary(
    nodeId: string, category: string, weightKg: real, contamination: bool, createdAt: Timestamp)

  /** A stored bin as `SELECT * FROM bins WHERE id = ?` returns it. */
  datatype StoredBin = StoredBin(id: nat, bin: Bin)

  /** What a notification carries; `None` is the `undefined` a lookup of a missing row gives. */
  datatype Payload =
    | Ack
    | TaskRowPayload(task: Option<StoredTask>)
    | WastePayload(summary: EventSummary)
    | BinRowPayload(bin: Option<StoredBin>)
    | TickPayload(binId: nat, category: string, weightKg: real, contamination: bool, createdAt: Timestamp)

  /** One server-sent event: its name and its payload (the wire framing is not modelled). */
  datatype Message = Message(event: string, payload: Payload)

  /** The body of `POST /api/events`; `None` is an absent field. */
  datatype DepositRequest = DepositRequest(
    nodeId: Option<string>,
    category: Option<string>,
    weightKg: JsValue,
    confidence: JsValue,
    contamination: JsValue)

  /** `nodeId` and `category` truthy and `typeof weightKg === "number"`. */
  predicate AcceptsDeposit(req: DepositRequest) {
    Present(req.nodeId) && Present(req.category) && IsNumber(req.weightKg)
  }

  datatype DepositOutcome = BadRequest | NotFound | Recorded(summary: EventSummary)

  datatype CreateOutcome = MissingFields | Created(row: StoredTask)

  datatype StatusOutcome = InvalidStatus | Updated(row: Option<StoredTask>)

  /** Each subscriber's outbox after `message` is written to every client in `clients`. */
  function Delivered(outbox: map<ClientId, seq<Message>>, clients: set<ClientId>, message: Message): (r: map<ClientId, seq<Message>>)
    ensures r.Keys == outbox.Keys
    ensures forall c :: c in r ==> r[c] == if c in clients then outbox[c] + [message] else outbox[c]
  {
    map c | c in outbox :: if c in clients then outbox[c] + [message] else outbox[c]
  }

  /** Fire-and-forget fan-out: every subscriber connected at publish time gets
      exactly that message last, and nobody else gets anything. */
  lemma DeliveredToConnectedOnly(outbox: map<ClientId, seq<Message>>, clients: set<ClientId>, message: Message, c: ClientId)
    requires c in outbox
    ensures c in clients ==> |Delivered(outbox, clients, message)[c]| == |outbox[c]| + 1
    ensures c in clients ==> Delivered(outbox, clients, message)[c][|outbox[c]|] == message
    ensures c in clients ==> Delivered(outbox, clients, message)[c][..|outbox[c]|] == outbox[c]
    ensures c !in clients ==> Delivered(outbox, clients, message)[c] == outbox[c]
  {
  }

  const ConnectedMessage: Message := Message("connected", Ack)

  class Store {
    /** `bins`: bins[k] is the row with id k + 1 (seeded once, never deleted). */
    var bins: seq<Bin>
    /** `waste_events`, append-only, in insertion order. */
    var events: seq<WasteEvent>
    /** `tasks`: tasks[k] is the row with id k + 1 (never deleted). */
    var tasks: seq<Task>
    /** The `clients` set: subscribers currently connected. */
    var clients: set<ClientId>
    /** What has been written to each subscriber that ever connected. */
    var outbox: map<ClientId, seq<Message>>
    /** The next unused subscriber id. */
    var nextClient: ClientId

    ghost predicate Valid()
      reads this
    {
      && BinsValid(bins)
      && (forall i :: 0 <= i < |events| ==> 1 <= events[i].binId <= |bins|)
      && (forall i :: 0 <= i < |events| ==> events[i].contamination == 0 || events[i].contamination == 1)
      && (forall i :: 0 <= i < |tasks| ==> CompletionConsistent(tasks[i]))
      && clients <= outbox.Keys
      && (forall c :: c in outbox ==> c < nextClient)
    }

    /** `initDb` on an empty database: the given rows as the bins, no events, no tasks, no subscribers. */
    constructor (seed: seq<Bin>)
      requires BinsValid(seed)
      ensures Valid()
      ensures bins == seed && events == [] && tasks == []
      ensures clients == {} && outbox == map[]
    {
      bins := seed;
      events := [];
      tasks := [];
      clients := {};
      outbox := map[];
      nextClient := 0;
    }

    /** `sendSse`: write `message` to every connected subscriber. */
    method Broadcast(message: Message)
      requires Valid()
      modifies this
      ensures Valid()
      ensures outbox == Delivered(old(outbox), clients, message)
      ensures bins == old(bins) && events == old(events) && tasks == old(tasks)
      ensures clients == old(clients) && nextClient == old(nextClient)
    {
      var pending := clients;
      while pending != {}
        invariant pending <= clients
        invariant clients == old(clients) && nextClient == old(nextClient)
        invariant bins == old(bins) && events == old(events) && tasks == old(tasks)
        invariant outbox.Keys == old(outbox).Keys
        invariant forall c :: c in outbox ==>
          outbox[c] == if c in clients - pending then old(outbox)[c] + [message] else old(outbox)[c]
        decreases pending
      {
        var c :| c in pending;
        outbox := outbox[c := outbox[c] + [message]];
        pending := pending - {c};
      }
    }

    /** `GET /api/stream`: acknowledge a freshly opened response, then register it. */
    method Connect() returns (c: ClientId)
      requires Valid()
      modifies this
      ensures Valid()
      ensures c !in old(outbox) && c in clients
      ensures outbox == old(outbox)[c := [ConnectedMessage]]
      ensures clients == old(clients) + {c}
      ensures bins == old(bins) && events == old(events) && tasks == old(tasks)
    {
      c := nextClient;
      nextClient := nextClient + 1;
      outbox := outbox[c := [ConnectedMessage]];
      clients := clients + {c};
    }

    /** The `close` listener: forget the subscriber; later notifications skip it. */
    method Disconnect(c: ClientId)
      requires Valid()
      modifies this
      ensures Valid()
      ensures clients == old(clients) - {c}
      ensures outbox == old(outbox) && nextClient == old(nextClient)
      ensures bins == old(bins) && events == old(events) && tasks == old(tasks)
    {
      clients := clients - {c};
    }

    /** The common write of a deposit: insert the event, then write back the bin at position `i`. */
    method Record(i: nat, category: string, weight: real, confidence: JsValue, flag: int, at: Timestamp)
      requires Valid() && i < |bins| && (flag == 0 || flag == 1)
      modifies this
      ensures Valid()
      ensures events == old(events) + [WasteEvent(i + 1, category, weight, confidence, flag, at)]
      ensures bins == old(bins)[i := Deposited(old(bins)[i], weight, at)]
      ensures tasks == old(tasks) && clients == old(clients) && outbox == old(outbox)
      ensures nextClient == old(nextClient)
    {
      events := events + [WasteEvent(i + 1, category, weight, confidence, flag, at)];
      DepositKeepsBinsValid(bins, i, weight, at);
      bins := bins[i := Deposited(bins[i], weight, at)];
    }

    /** `POST /api/events` at time `at`. */
    method Deposit(req: DepositRequest, at: Timestamp) returns (out: DepositOutcome)
      requires Valid()
      modifies this
      ensures Valid()
      ensures out.BadRequest? <==> !AcceptsDeposit(req)
      ensures out.NotFound? <==> AcceptsDeposit(req) && FindNode(old(bins), req.nodeId.value).None?
      ensures !out.Recorded? ==> bins == old(bins) && events == old(events) && outbox == old(outbox)
      ensures out.Recorded? ==>
        var i := FindNode(old(bins), req.nodeId.value).value;
        && out.summary == EventSummary(req.nodeId.value, req.category.value, req.weightKg.n, Truthy(req.contamination), at)
        && events == old(events) + [WasteEvent(i + 1, req.category.value, req.weightKg.n,
                                               StoredConfidence(req.confidence), ContaminationFlag(req.contamination), at)]
        && bins == old(bins)[i := Deposited(old(bins)[i], req.weightKg.n, at)]
        && outbox == Delivered(old(outbox), clients, Message("waste_event", WastePayload(out.summary)))
      ensures out.Recorded? && old(FillsInRange(bins)) && 0.0 <= req.weightKg.n ==> FillsInRange(bins)
      ensures tasks == old(tasks) && clients == old(clients) && nextClient == old(nextClient)
    {
      if !AcceptsDeposit(req) {
        return BadRequest;
      }
      var found := FindNode(bins, req.nodeId.value);
      if found.None? {
        return NotFound;
      }
      var i := found.value;
      var weight := req.weightKg.n;
      Record(i, req.category.value, weight, StoredConfidence(req.confidence), ContaminationFlag(req.contamination), at);
      var summary := EventSummary(req.nodeId.value, req.category.value, weight, Truthy(req.contamination), at);
      Broadcast(Message("waste_event", WastePayload(summary)));
      out := Recorded(summary);
    }

    /** One run of the simulator timer at time `at`. The random choices are
        parameters in the ranges the generator produces: the bin position
        `pick`, the category index, a weight of 0.1 to 0.7 kg and a confidence
        of 0.8 to 0.98 (both after rounding to two decimals). */
    method SimulatorTick(pick: nat, categoryIndex: nat, weight: real, confidence: real, contamination: bool, at: Timestamp)
      requires Valid()
      requires |bins| == 0 || pick < |bins|
      requires categoryIndex < |Categories|
      requires 0.1 <= weight <= 0.7 && 0.8 <= confidence <= 0.98
      modifies this
      ensures Valid()
      ensures |old(bins)| == 0 ==> bins == old(bins) && events == old(events) && outbox == old(outbox)
      ensures |old(bins)| > 0 ==>
        && events == old(events) + [WasteEvent(pick + 1, Categories[categoryIndex], weight, Num(confidence),
                                               if contamination then 1 else 0, at)]
        && bins == old(bins)[pick := Deposited(old(bins)[pick], weight, at)]
        && outbox == Delivered(old(outbox), clients,
                               Message("sim_tick", TickPayload(pick + 1, Categories[categoryIndex], weight, contamination, at)))
      ensures old(FillsInRange(bins)) ==> FillsInRange(bins)
      ensures tasks == old(tasks) && clients == old(clients) && nextClient == old(nextClient)
    {
      if |bins| == 0 {
        return;
      }
      var category := Categories[categoryIndex];
      Record(pick, category, weight, Num(confidence), if contamination then 1 else 0, at);
      Broadcast(Message("sim_tick", TickPayload(pick + 1, category, weight, contamination, at)));
    }

    /** `POST /api/bins/:id/cleaned` at time `at`. An id without a row changes
        nothing, yet `undefined` is still broadcast and returned. */
    method MarkCleaned(id: int, at: Timestamp) returns (row: Option<StoredBin>)
      requires Valid()
      modifies this
      ensures Valid()
      ensures 1 <= id <= |old(bins)| ==>
        && bins == old(bins)[id - 1 := Cleaned(old(bins)[id - 1], at)]
        && row == Some(StoredBin(id, bins[id - 1]))
      ensures 1 <= id <= |old(bins)| ==>
        && bins[id - 1].fillKg == 0.0 && bins[id - 1].status == Ok
        && bins[id - 1].lastCleanedAt == Some(at) && bins[id - 1].updatedAt == at
      ensures !(1 <= id <= |old(bins)|) ==> bins == old(bins) && row == None
      ensures outbox == Delivered(old(outbox), clients, Message("bin_cleaned", BinRowPayload(row)))
      ensures old(FillsInRange(bins)) ==> FillsInRange(bins)
      ensures events == old(events) && tasks == old(tasks)
      ensures clients == old(clients) && nextClient == old(nextClient)
    {
      if 1 <= id <= |bins| {
        CleaningKeepsBinsValid(bins, id - 1, at);
        bins := bins[id - 1 := Cleaned(bins[id - 1], at)];
        row := Some(StoredBin(id, bins[id - 1]));
      } else {
        row := None;
      }
      Broadcast(Message("bin_cleaned", BinRowPayload(row)));
    }

    /** `POST /api/tasks` at time `at`. The bin id is not checked against `bins`. */
    method CreateTask(req: TaskRequest, at: Timestamp) returns (out: CreateOutcome)
      requires Valid()
      modifies this
      ensures Valid()
      ensures out.MissingFields? <==> !AcceptsTask(req)
      ensures out.MissingFields? ==> tasks == old(tasks) && outbox == old(outbox)
      ensures out.Created? ==>
        && out.row == StoredTask(|old(tasks)| + 1, NewTask(req, at))
        && tasks == old(tasks) + [NewTask(req, at)]
        && outbox == Delivered(old(outbox), clients, Message("task_created", TaskRowPayload(Some(out.row))))
      ensures bins == old(bins) && events == old(events)
      ensures clients == old(clients) && nextClient == old(nextClient)
    {
      if !AcceptsTask(req) {
        return MissingFields;
      }
      var task := NewTask(req, at);
      tasks := tasks + [task];
      var row := StoredTask(|tasks|, task);
      Broadcast(Message("task_created", TaskRowPayload(Some(row))));
      out := Created(row);
    }

    /** `PATCH /api/tasks/:id/status` at time `at`. A valid status for an id
        without a row changes nothing, yet `undefined` is still broadcast and returned. */
    method UpdateTaskStatus(id: int, status: Option<string>, at: Timestamp) returns (out: StatusOutcome)
      requires Valid()
      modifies this
      ensures Valid()
      ensures out.InvalidStatus? <==> ParseTaskStatus(status).None?
      ensures out.InvalidStatus? ==> tasks == old(tasks) && outbox == old(outbox)
      ensures out.Updated? ==>
        var s := ParseTaskStatus(status).value;
        && (1 <= id <= |old(tasks)| ==>
              && tasks == old(tasks)[id - 1 := WithStatus(old(tasks)[id - 1], s, at)]
              && out.row == Some(StoredTask(id, tasks[id - 1])))
        && (!(1 <= id <= |old(tasks)|) ==> tasks == old(tasks) && out.row == None)
        && outbox == Delivered(old(outbox), clients, Message("task_updated", TaskRowPayload(out.row)))
      ensures out.Updated? && 1 <= id <= |tasks| ==>
        && tasks[id - 1].status == ParseTaskStatus(status).value
        && (tasks[id - 1].completedAt.Some? <==> tasks[id - 1].status == Completed)
      ensures bins == old(bins) && events == old(events)
      ensures clients == old(clients) && nextClient == old(nextClient)
    {
      var parsed := ParseTaskStatus(status);
      if parsed.None? {
        return InvalidStatus;
      }
      var row: Option<StoredTask>;
      if 1 <= id <= |tasks| {
        tasks := tasks[id - 1 := WithStatus(tasks[id - 1], parsed.value, at)];
        row := Some(StoredTask(id, tasks[id - 1]));
      } else {
        row := None;
      }
      Broadcast(Message("task_updated", TaskRowPayload(row)));
      out := Updated(row);
    }
  }

  /** What a caller can conclude from the contracts alone: a subscriber that
      connected before a deposit receives the deposit's exact fields, and the
      seeded BIN-004 (42 of 55 kg) stays `needs_cleaning` at 47 kg. */
  method SubscriberSeesDeposit(now: Timestamp, at: Timestamp)
  {
    var store := new Store(SeedBins(now));
    var c := store.Connect();
    var out := store.Deposit(DepositRequest(Some("BIN-004"), Some("organic"), Num(5.0), Undefined, Bool(true)), at);
    FindNodeOfBin(SeedBins(now), 3);
    assert out == Recorded(EventSummary("BIN-004", "organic", 5.0, true, at));
    assert store.outbox[c] == [ConnectedMessage, Message("waste_event", WastePayload(out.summary))];
    assert store.bins[3].fillKg == 47.0 && store.bins[3].status == NeedsCleaning;
    assert store.events == [WasteEvent(4, "organic", 5.0, Num(0.75), 1, at)];
  }

  /** Rejected deposits write nothing. */
  method RejectedDepositsWriteNothing(now: Timestamp, at: Timestamp)
  {
    var store := new Store(SeedBins(now));
    var missing := store.Deposit(DepositRequest(Some("BIN-004"), None, Num(5.0), Undefined, Undefined), at);
    assert missing == BadRequest && store.events == [] && store.bins == SeedBins(now);
    var unknown := store.Deposit(DepositRequest(Some("BIN-999"), Some("paper"), Num(1.0), Undefined, Undefined), at);
    assert unknown == NotFound && store.events == [] && store.bins == SeedBins(now);
  }

  /** Cleaning resets the seeded BIN-004 whatever its state. */
  method CleaningResetsBin(now: Timestamp, at: Timestamp)
  {
    var store := new Store(SeedBins(now));
    var row := store.MarkCleaned(4, at);
    assert store.bins[3].fillKg == 0.0 && store.bins[3].status == Ok;
    assert row == Some(StoredBin(4, store.bins[3]));
  }
}
