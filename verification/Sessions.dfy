/** The session map (session_manager.h:63-81): three fields packed into one atomic word per order token. */
module Sessions {
  import opened Orders

  /** The fields at the widths the code passes them with; the slot protocol's Session is their meaning. */
  datatype Fields = Fields(id: bv64, inst: bv16, client: bv32)

  const UNREGISTERED: Fields := Fields(0, 0, 0)

  function Pack(f: Fields): bv64 {
    ((f.client as bv64) << 32) | (f.id << 8) | (f.inst as bv64)
  }

  function Unpack(packed: bv64): Fields {
    Fields((packed >> 8) & 0xFFFFF, (packed & 0xFF) as bv16, (packed >> 32) as bv32)
  }

  /** Handle and instrument fit the bits the layout gives them. */
  predicate Fit(f: Fields) {
    f.id < 0x100000 && f.inst < 0x100
  }

  /** The three fields come back exactly when handle and instrument fit. */
  lemma PackRoundTripIff(f: Fields)
    ensures Unpack(Pack(f)) == f <==> Fit(f)
  {}

  lemma UnpackZero()
    ensures Unpack(0) == UNREGISTERED
  {}

  class SessionManager {
    const slots: array<bv64>
    ghost var recorded: map<nat, Fields>

    /** The array is the map of everything recorded; the word of anything else is zero. */
    ghost predicate Valid()
      reads this, slots
    {
      && slots.Length == MAX_CLIENT_ORDERS
      && (forall t <- recorded :: t < MAX_CLIENT_ORDERS && slots[t] == Pack(recorded[t]))
      && (forall t :: 0 <= t < MAX_CLIENT_ORDERS && t !in recorded ==> slots[t] == 0)
    }

    constructor ()
      ensures Valid() && fresh(slots) && recorded == map[]
    {
      slots := new bv64[MAX_CLIENT_ORDERS](i => 0);
      recorded := map[];
    }

    method RecordOrder(token: nat, f: Fields)
      requires Valid()
      modifies this`recorded, slots
      ensures Valid()
      ensures recorded == if token < MAX_CLIENT_ORDERS then old(recorded)[token := f] else old(recorded)
    {
      hide Pack;
      if token < MAX_CLIENT_ORDERS {
        slots[token] := Pack(f);
        recorded := recorded[token := f];
      }
    }

    /** Nothing recorded reads as handle 0; what was recorded reads back exactly when it fits, and then reads as
        registered if its handle is not the reserved slot 0. */
    method LookupData(token: nat) returns (f: Fields)
      requires Valid()
      ensures token !in recorded ==> f == UNREGISTERED
      ensures token in recorded ==> (f == recorded[token] <==> Fit(recorded[token]))
      ensures (forall t <- recorded :: Fit(recorded[t]) && recorded[t].id != 0) ==> (f.id != 0 <==> token in recorded)
    {
      if token < MAX_CLIENT_ORDERS {
        f := Unpack(slots[token]);
        if token in recorded { PackRoundTripIff(recorded[token]); } else { UnpackZero(); }
        hide Pack, Unpack;
      } else {
        f := Fields(0, 0, 0);
      }
    }
  }
}
