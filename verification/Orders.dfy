/** Orders and the messages the matching engine emits (order.h, messages.h). */
module Orders {

  // Live orders per shard are bounded by the pool; an order's id is its pool slot, slot 0 is null.
  const POOL_CAPACITY: nat := 500000
  const MAX_PRICE: nat := 100001

  // What the gateway lets through: instruments (messages.h:30), session tokens (session_manager.h:28), and the
  // quantity limit of its risk check (risk_engine.h:11).
  const MAX_INSTRUMENTS: nat := 256
  const MAX_CLIENT_ORDERS: nat := 50000000
  const MAX_ORDER_QTY: nat := 1000000

  datatype Side = Buy | Sell {
    function Other(): Side { if Buy? then Sell else Buy }
  }

  /** token: the client's own order token; client: the connection, assigned by the gateway. */
  datatype Order = Order(
    id: nat, token: nat, client: nat, price: nat, qty: nat, inst: nat, worker: nat, side: Side)

  datatype Kind = Added | Executed | Removed

  datatype OrderState = New | PartialFill | Filled | Canceled | Rejected

  /** Everything an order book pushes out, in the order it is pushed. */
  datatype Event =
    | Itch(kind: Kind, id: nat, price: nat, qty: nat, inst: nat, side: Side)
    | DropCopy(token: nat, id: nat, price: nat, qty: nat, inst: nat, side: Side, state: OrderState)
    | Ack(worker: nat, client: nat, token: nat, shares: nat, price: nat, removed: bool)
    | Freed(id: nat)

  function Min(a: nat, b: nat): nat { if a <= b then a else b }

  function Broadcast(kind: Kind, o: Order, price: nat, qty: nat): Event {
    Itch(kind, o.id, price, qty, o.inst, o.side)
  }

  function Report(o: Order, price: nat, qty: nat, state: OrderState): Event {
    DropCopy(o.token, o.id, price, qty, o.inst, o.side, state)
  }

  function PrivateAck(o: Order, shares: nat, price: nat, removed: bool): Event {
    Ack(o.worker, o.client, o.token, shares, price, removed)
  }
}
