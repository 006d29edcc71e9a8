/**
 internal/api/binance/registry.go: the edge's order records under three indexes. The
 functions work on one table of record values and the client-id index; the class keeps
 shared mutable records in three maps and is proved to compute them.
 */
module Registry {
  import opened Common
  import opened FixedPoint
  import opened Orders
  import Numerals

  datatype OrderType = LimitType | MarketType

  datatype Status = New | PartiallyFilled | Filled | Canceled

  datatype Rec = Rec(
    id: nat, client: string, sym: string, side: Side, typ: OrderType,
    price: int, orig: int, executed: int, cumQuote: int, status: Status)
  {
    predicate Open() {
      status.New? || status.PartiallyFilled?
    }
  }

  /** What a place request asks for, once validated: a positive quantity, a positive price on
      a limit order and the zero price on a market order. */
  datatype Request = Request(sym: string, side: Side, typ: OrderType, price: int, qty: int, client: string) {
    ghost predicate Valid() {
      qty > 0 && (if typ.LimitType? then price > 0 else price == 0)
    }
  }

  type Recs = map<nat, Rec>
  type Clients = map<string, nat>

  function GeneratedClient(n: nat): string {
    "x-emu-" + Numerals.Render(n)
  }

  function ClientFor(req: Request, n: nat): string {
    if req.client == "" then GeneratedClient(n) else req.client
  }

  function NewRec(n: nat, req: Request): Rec {
    Rec(n, ClientFor(req, n), req.sym, req.side, req.typ, req.price, req.qty, 0, 0, New)
  }

  /** Fold one fill into a record. */
  function ApplyFill(rec: Rec, qty: int, price: int): Rec {
    if qty <= 0 then rec
    else
      var rec' := rec.(executed := rec.executed + qty, cumQuote := rec.cumQuote + MulRaw(qty, price));
      if rec.status.Canceled? then rec'
      else if rec'.executed >= rec'.orig then rec'.(status := Filled)
      else if rec'.executed > 0 then rec'.(status := PartiallyFilled)
      else rec'
  }

  function FoldFor(recs: Recs, id: OrderId, qty: int, price: int): Recs {
    if id.Edge? && id.num in recs then recs[id.num := ApplyFill(recs[id.num], qty, price)] else recs
  }

  /** The trade hook: buyer first, then seller; ids of other origins are ignored. */
  function FoldTrade(recs: Recs, t: Trade): Recs {
    FoldFor(FoldFor(recs, t.buyId, t.volume, t.price), t.sellId, t.volume, t.price)
  }

  /** The cancel hook, and MarkCanceled: a filled order stays filled. */
  function CancelRec(recs: Recs, n: nat): Recs {
    if n in recs && !recs[n].status.Filled? then recs[n := recs[n].(status := Canceled)] else recs
  }

  function DropRec(recs: Recs, n: nat): Recs {
    recs - {n}
  }

  function DropClient(recs: Recs, clients: Clients, n: nat): Clients {
    if n in recs then clients - {recs[n].client} else clients
  }

  /** The client-id index holds exactly the tracked records, under their own client ids. */
  ghost predicate ClientsOk(recs: Recs, clients: Clients) {
    && (forall n :: n in recs ==> recs[n].id == n && recs[n].client in clients && clients[recs[n].client] == n)
    && (forall c :: c in clients ==> clients[c] in recs && recs[clients[c]].client == c)
  }

  lemma RegisterKeepsClients(recs: Recs, clients: Clients, n: nat, req: Request)
    requires ClientsOk(recs, clients) && n !in recs && ClientFor(req, n) !in clients
    ensures ClientsOk(recs[n := NewRec(n, req)], clients[ClientFor(req, n) := n])
  {
  }

  lemma DropKeepsClients(recs: Recs, clients: Clients, n: nat)
    requires ClientsOk(recs, clients)
    ensures ClientsOk(DropRec(recs, n), DropClient(recs, clients, n))
  {
  }

  /** Registering and then removing a record leaves no trace: the client id can be claimed again. */
  lemma RegisterThenDrop(recs: Recs, clients: Clients, n: nat, req: Request)
    requires ClientsOk(recs, clients) && n !in recs && ClientFor(req, n) !in clients
    ensures var recs' := recs[n := NewRec(n, req)];
            var clients' := clients[ClientFor(req, n) := n];
            DropRec(recs', n) == recs && DropClient(recs', clients', n) == clients
  {
  }

  /** "An empty client id is always unique" fails exactly when a tracked record's client was
      explicitly given the id that is now generated: generated ids never clash by themselves. */
  lemma EmptyClientIdClash(recs: Recs, clients: Clients, n: nat, req: Request)
    requires ClientsOk(recs, clients) && n !in recs && req.client == ""
    ensures ClientFor(req, n) in clients <==>
            exists m :: m in recs && recs[m].client == GeneratedClient(n) && recs[m].client != GeneratedClient(m)
  {
    if ClientFor(req, n) in clients {
      var m := clients[ClientFor(req, n)];
      if GeneratedClient(m) == GeneratedClient(n) {
        assert GeneratedClient(m)[6..] == Numerals.Render(m);
        assert GeneratedClient(n)[6..] == Numerals.Render(n);
        Numerals.RenderInjective(m, n);
        assert false;
      }
    }
  }

  /** A first order that names "x-emu-2" makes the second order, with no client id, a duplicate. */
  lemma EmptyClientIdClashHappens()
    ensures var first := Request("BTC-USD", Buy, LimitType, SCALE, SCALE, "x-emu-2");
            var second := first.(client := "");
            var clients: Clients := map[ClientFor(first, 1) := 1];
            ClientFor(second, 2) in clients
  {
    assert GeneratedClient(2) == "x-emu-2";
  }

  // ----- the mutable registry ------------------------------------------------------------

  class OrderRecord {
    const id: nat
    const client: string
    const engine: OrderId
    const sym: string
    const side: Side
    const typ: OrderType
    const price: int
    const orig: int
    var executed: int
    var cumQuote: int
    var status: Status

    constructor (n: nat, req: Request)
      ensures Val() == NewRec(n, req) && engine == Edge(n)
    {
      id, client, engine := n, ClientFor(req, n), Edge(n);
      sym, side, typ, price, orig := req.sym, req.side, req.typ, req.price, req.qty;
      executed, cumQuote, status := 0, 0, New;
    }

    function Val(): Rec
      reads this
    {
      Rec(id, client, sym, side, typ, price, orig, executed, cumQuote, status)
    }

    method Fill(qty: int, fillPrice: int)
      modifies this
      ensures Val() == ApplyFill(old(Val()), qty, fillPrice)
    {
      if qty <= 0 {
        return;
      }
      executed := executed + qty;
      cumQuote := cumQuote + MulRaw(qty, fillPrice);
      if status.Canceled? {
        return;
      }
      if executed >= orig {
        status := Filled;
      } else if executed > 0 {
        status := PartiallyFilled;
      }
    }
  }

  /** The three indexes are three ways into one set of records. */
  ghost predicate IndexesAgree(
    byOrder: map<nat, OrderRecord>, byEngine: map<OrderId, OrderRecord>, byClient: map<string, OrderRecord>)
  {
    && (forall n :: n in byOrder ==>
          var rec := byOrder[n];
          && rec.id == n && rec.engine == Edge(n)
          && rec.engine in byEngine && byEngine[rec.engine] == rec
          && rec.client in byClient && byClient[rec.client] == rec)
    && (forall e :: e in byEngine ==> e.Edge? && e.num in byOrder && byOrder[e.num] == byEngine[e])
    && (forall c :: c in byClient ==>
        byClient[c].id in byOrder && byOrder[byClient[c].id] == byClient[c] && byClient[c].client == c)
  }

  lemma IndexesInsert(
    byOrder: map<nat, OrderRecord>, byEngine: map<OrderId, OrderRecord>, byClient: map<string, OrderRecord>,
        rec: OrderRecord)
    requires IndexesAgree(byOrder, byEngine, byClient)
    requires rec.id !in byOrder && rec.client !in byClient && rec.engine == Edge(rec.id)
    ensures IndexesAgree(byOrder[rec.id := rec], byEngine[rec.engine := rec], byClient[rec.client := rec])
  {
  }

  lemma IndexesRemove(
    byOrder: map<nat, OrderRecord>, byEngine: map<OrderId, OrderRecord>, byClient: map<string, OrderRecord>,
        rec: OrderRecord)
    requires IndexesAgree(byOrder, byEngine, byClient)
    requires rec.id in byOrder && byOrder[rec.id] == rec
    ensures IndexesAgree(byOrder - {rec.id}, byEngine - {rec.engine}, byClient - {rec.client})
  {
  }

  ghost function RecsOf(byOrder: map<nat, OrderRecord>): Recs
    reads byOrder.Values
  {
    map n | n in byOrder :: byOrder[n].Val()
  }

  ghost function ClientsOf(byClient: map<string, OrderRecord>): Clients {
    map c | c in byClient :: byClient[c].id
  }

  lemma RecsInsert(byOrder: map<nat, OrderRecord>, rec: OrderRecord)
    ensures RecsOf(byOrder[rec.id := rec]) == RecsOf(byOrder)[rec.id := rec.Val()]
  {
  }

  lemma RecsRemove(byOrder: map<nat, OrderRecord>, n: nat)
    ensures RecsOf(byOrder - {n}) == RecsOf(byOrder) - {n}
  {
  }

  lemma ClientsRemove(byClient: map<string, OrderRecord>, client: string)
    ensures ClientsOf(byClient - {client}) == ClientsOf(byClient) - {client}
  {
  }

  class OrderRegistry {
    var seqNo: nat
    var byOrder: map<nat, OrderRecord>
    var byEngine: map<OrderId, OrderRecord>
    var byClient: map<string, OrderRecord>

    constructor ()
      ensures Valid() && seqNo == 0 && byOrder == map[] && State() == map[] && ClientState() == map[]
    {
      seqNo, byOrder, byEngine, byClient := 0, map[], map[], map[];
    }

    ghost predicate Valid()
      reads this
    {
      IndexesAgree(byOrder, byEngine, byClient)
    }

    ghost function State(): Recs
      reads this, byOrder.Values
    {
      RecsOf(byOrder)
    }

    ghost function ClientState(): Clients
      reads this
    {
      ClientsOf(byClient)
    }

    method NextId() returns (n: nat)
      modifies this`seqNo
      ensures n == seqNo == old(seqNo) + 1
    {
      seqNo := seqNo + 1;
      n := seqNo;
    }

    /** Enter a record under all three indexes. */
    method Insert(rec: OrderRecord)
      requires Valid() && rec.id !in byOrder && rec.client !in byClient && rec.engine == Edge(rec.id)
      modifies this`byOrder, this`byEngine, this`byClient
      ensures Valid() && byOrder == old(byOrder)[rec.id := rec]
      ensures State() == old(State())[rec.id := rec.Val()]
      ensures ClientState() == old(ClientState())[rec.client := rec.id]
    {
      hide IndexesAgree, RecsOf;
      IndexesInsert(byOrder, byEngine, byClient, rec);
      RecsInsert(byOrder, rec);
      byOrder := byOrder[rec.id := rec];
      byEngine := byEngine[rec.engine := rec];
      byClient := byClient[rec.client := rec];
    }

    /** Claim the client id for order `n`, or find it taken and change nothing. */
    method RecordUnique(n: nat, req: Request) returns (rec: Option<OrderRecord>)
      requires Valid() && n !in byOrder
      modifies this`byOrder, this`byEngine, this`byClient
      ensures Valid()
      ensures rec.None? <==> ClientFor(req, n) in old(ClientState())
      ensures rec.None? ==> byOrder == old(byOrder) && State() == old(State()) && ClientState() == old(ClientState())
      ensures rec.Some? ==>
          fresh(rec.value) && rec.value.Val() == NewRec(n, req) && byOrder == old(byOrder)[n := rec.value]
      ensures rec.Some? ==> State() == old(State())[n := NewRec(n, req)]
      ensures rec.Some? ==> ClientState() == old(ClientState())[ClientFor(req, n) := n]
    {
      hide ClientFor, IndexesAgree;
      var record := new OrderRecord(n, req);
      assert record.id == record.Val().id == n && record.client == record.Val().client == ClientFor(req, n);
      if record.client in byClient {
        return None;
      }
      Insert(record);
      rec := Some(record);
    }

    method FillFor(id: OrderId, qty: int, price: int)
      requires Valid()
      modifies byOrder.Values
      ensures State() == FoldFor(old(State()), id, qty, price)
    {
      if id in byEngine {
        var rec := byEngine[id];
        assert rec in byOrder.Values;
        rec.Fill(qty, price);
        assert forall n :: n in byOrder && n != id.num ==> byOrder[n] != rec;
      }
    }

    /** The book's trade hook. */
    method OnTrade(t: Trade)
      requires Valid()
      modifies byOrder.Values
      ensures State() == FoldTrade(old(State()), t)
    {
      FillFor(t.buyId, t.volume, t.price);
      FillFor(t.sellId, t.volume, t.price);
    }

    /** MarkCanceled; the cancel hook does the same for an edge order found by engine id. */
    method MarkCanceled(n: nat)
      requires Valid()
      modifies byOrder.Values
      ensures State() == CancelRec(old(State()), n)
    {
      if n in byOrder && !byOrder[n].status.Filled? {
        var rec := byOrder[n];
        rec.status := Canceled;
        assert forall m :: m in byOrder && m != n ==> byOrder[m] != rec;
      }
    }

    method OnCancel(o: Order)
      requires Valid()
      modifies byOrder.Values
      ensures State() == if o.id.Edge? then CancelRec(old(State()), o.id.num) else old(State())
    {
      if o.id in byEngine && !byEngine[o.id].status.Filled? {
        var rec := byEngine[o.id];
        assert rec in byOrder.Values;
        rec.status := Canceled;
        assert forall m :: m in byOrder && m != o.id.num ==> byOrder[m] != rec;
      }
    }

    /** A value copy of the record of an engine order id. */
    method GetByEngine(id: OrderId) returns (rec: Option<Rec>)
      requires Valid()
      ensures rec == if id.Edge? && id.num in State() then Some(State()[id.num]) else None
    {
      if id in byEngine { rec := Some(byEngine[id].Val()); } else { rec := None; }
    }

    /** Delete a record from every index. */
    method Remove(n: nat)
      requires Valid()
      modifies this`byOrder, this`byEngine, this`byClient
      ensures Valid()
      ensures byOrder == old(byOrder) - {n}
      ensures State() == DropRec(old(State()), n)
      ensures ClientState() == DropClient(old(State()), old(ClientState()), n)
    {
      hide IndexesAgree, RecsOf, ClientsOf, DropRec, DropClient;
      if n !in byOrder {
        NothingToDrop(byOrder, n, ClientState());
        return;
      }
      var rec := byOrder[n];
      Dropped(byOrder, byEngine, byClient, rec, n);
      byOrder := byOrder - {n};
      byEngine := byEngine - {rec.engine};
      byClient := byClient - {rec.client};
    }
  }

  lemma NothingToDrop(byOrder: map<nat, OrderRecord>, n: nat, clients: Clients)
    requires n !in byOrder
    ensures byOrder - {n} == byOrder
    ensures DropRec(RecsOf(byOrder), n) == RecsOf(byOrder) && DropClient(RecsOf(byOrder), clients, n) == clients
  {
  }

  /** A record taken out of the three indexes is out of the values they stand for. */
  lemma Dropped(
    byOrder: map<nat, OrderRecord>, byEngine: map<OrderId, OrderRecord>, byClient: map<string, OrderRecord>,
        rec: OrderRecord, n: nat)
    requires IndexesAgree(byOrder, byEngine, byClient) && n in byOrder && rec == byOrder[n]
    ensures IndexesAgree(byOrder - {n}, byEngine - {rec.engine}, byClient - {rec.client})
    ensures RecsOf(byOrder - {n}) == DropRec(RecsOf(byOrder), n)
    ensures ClientsOf(byClient - {rec.client}) == DropClient(RecsOf(byOrder), ClientsOf(byClient), n)
  {
    assert rec.id == n && RecsOf(byOrder)[n].client == rec.client;
    IndexesRemove(byOrder, byEngine, byClient, rec);
    RecsRemove(byOrder, n);
    ClientsRemove(byClient, rec.client);
    hide IndexesAgree, RecsOf, ClientsOf;
  }
}
