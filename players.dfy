/** A player's server-side record and the inventory accessors. The inventory is a
    fixed array of 44 slots; the accessors cut fixed ranges out of it and convert each
    range to a fixed-size array, stopping the task (a panic) when the sizes differ.
    Positions are floating point in the source; only their dimension and world are
    kept here. */
module Players {
  import opened Protocol

  datatype ItemStack = ItemStack(itemId: int, itemCount: int)

  type Slot = Option<ItemStack>

  const SlotCount: nat := 44

  type SlotArray = s: seq<Slot> | |s| == 44 witness seq(44, _ => None)

  datatype PlayerInventory = PlayerInventory(items: SlotArray)

  datatype Health = Health(health: I32, hunger: I32, saturation: I32)

  datatype Position = Position(dimension: I32, world: string)

  datatype Player = Player(
    name: string, uuid: Uuid, entityId: I32, position: Position, health: Health,
    inventory: PlayerInventory, gamemode: GameMode)

  /** What an accessor yields: the slots, or the panic that stops the calling task. */
  datatype Access<+T> = Value(value: T) | Panics(reason: string)

  const NotEnoughSlots: string := "Inventory did not have enough slots."
  const IndexOutOfBounds: string := "index out of bounds"

  function NewInventory(items: SlotArray): (inv: PlayerInventory)
    ensures inv.items == items
  {
    PlayerInventory(items)
  }

  /** An inventory with all 44 slots empty. */
  function NewEmptyInventory(): (inv: PlayerInventory)
    ensures |inv.items| == SlotCount
    ensures forall i :: 0 <= i < |inv.items| ==> inv.items[i] == None
  {
    PlayerInventory(seq(44, _ => None))
  }

  /** A new player: the given identity and entity id, full health, hunger and
      saturation (20 each), spectator mode, dimension 0 of world "world", and an empty
      inventory. */
  function NewPlayer(name: string, uuid: Uuid, entityId: I32): (p: Player)
    ensures p.name == name && p.uuid == uuid && p.entityId == entityId
    ensures p.health == Health(20, 20, 20) && p.gamemode == Spectator
    ensures p.position.dimension == 0 && p.position.world == "world"
    ensures forall i :: 0 <= i < |p.inventory.items| ==> p.inventory.items[i] == None
  {
    Player(name, uuid, entityId, Position(0, "world"), Health(20, 20, 20), NewEmptyInventory(), Spectator)
  }

  /** The `.try_into().expect(...)` conversion of a slice to an array of `n` slots. */
  function IntoSlots(slice: seq<Slot>, n: nat): (r: Access<seq<Slot>>)
    ensures r.Value? <==> |slice| == n
    ensures r.Value? ==> r.value == slice
    ensures r.Panics? ==> r.reason == NotEnoughSlots
  {
    if |slice| == n then Value(slice) else Panics(NotEnoughSlots)
  }

  /** Armor: slots 5..8 (three slots) into an array of four, which always fails. */
  function GetArmor(inv: PlayerInventory): (r: Access<seq<Slot>>)
    ensures r == Panics(NotEnoughSlots)
  {
    IntoSlots(inv.items[5..8], 4)
  }

  /** Main inventory: slots 9..35 (26 slots) into an array of 27, which always fails. */
  function GetInventory(inv: PlayerInventory): (r: Access<seq<Slot>>)
    ensures r == Panics(NotEnoughSlots)
  {
    IntoSlots(inv.items[9..35], 27)
  }

  /** Hotbar: slots 36..44 (eight slots) into an array of nine, which always fails. */
  function GetHotbar(inv: PlayerInventory): (r: Access<seq<Slot>>)
    ensures r == Panics(NotEnoughSlots)
  {
    IntoSlots(inv.items[36..44], 9)
  }

  /** Indexing a slot array, which panics past its end. */
  function SlotAt(items: seq<Slot>, i: nat): (r: Access<Slot>)
    ensures r.Value? <==> i < |items|
    ensures r.Value? ==> r.value == items[i]
  {
    if i < |items| then Value(items[i]) else Panics(IndexOutOfBounds)
  }

  /** Off-hand: slot 45, past the end of the 44-slot array, so indexing always fails. */
  function GetOffhand(inv: PlayerInventory): (r: Access<Slot>)
    ensures r == Panics(IndexOutOfBounds)
  {
    SlotAt(inv.items, 45)
  }

  /** Crafting input: slots 1..4 (three slots) into an array of four, which always fails. */
  function GetCraftingInput(inv: PlayerInventory): (r: Access<seq<Slot>>)
    ensures r == Panics(NotEnoughSlots)
  {
    IntoSlots(inv.items[1..4], 4)
  }

  /** Crafting output: slot 0, the only accessor that can succeed. */
  function GetCraftingOutput(inv: PlayerInventory): (r: Slot)
    ensures r == inv.items[0]
  {
    inv.items[0]
  }
}
