/** The two merges of the stacking rule: a cursor stack clicked onto an
    inventory slot (`onInventoryClick` and `stackItems` in Main.java) and a
    picked-up stew merged into the first suitable inventory slot
    (`onEntityPickupItem`). The configured capacity `maxStackSize` and the
    `stackingEnabled` switch are passed in. */
module Stacking {
  import opened Items
  import opened Effects

  /** Capacity used when the configuration sets none. */
  const DefaultMaxStackSize := 64

  /** The amounts of a target stack and of the stack moved onto it. */
  datatype Amounts = Amounts(target: int, source: int)

  /** The amounts after moving `source` onto `target` with room for
      `maxStackSize`: all of it when the total fits, otherwise the target is
      filled to capacity and the source keeps the overflow. */
  function Combine(target: int, source: int, maxStackSize: int): (r: Amounts)
    requires 1 <= maxStackSize
    ensures r.target + r.source == target + source
    ensures r.target <= maxStackSize
    ensures r.source >= 0
    ensures r.source == 0 <==> target + source <= maxStackSize
    ensures r.source > 0 ==> r.target == maxStackSize
    ensures 1 <= target && 0 <= source ==> 1 <= r.target
  {
    var total := target + source;
    if total <= maxStackSize then Amounts(total, 0)
    else Amounts(maxStackSize, total - maxStackSize)
  }

  /** With the default capacity: 40 + 20 merges fully and 50 + 20 fills the
      target and leaves 6. A target already at or above capacity is set to
      the capacity and the rest moves to the source: 64 + 5 leaves 5 and an
      over-full 65 + 5 leaves 6. */
  lemma DefaultCapacityExamples()
    ensures Combine(40, 20, DefaultMaxStackSize) == Amounts(60, 0)
    ensures Combine(50, 20, DefaultMaxStackSize) == Amounts(64, 6)
    ensures Combine(64, 5, DefaultMaxStackSize) == Amounts(64, 5)
    ensures Combine(65, 5, DefaultMaxStackSize) == Amounts(64, 6)
  {
  }

  /** Moves the cursor stack onto the clicked stack. There is no "already
      full" case: a clicked stack at or above capacity is set to exactly the
      capacity and the cursor takes the rest. */
  method StackItems(clicked: ItemStack, cursor: ItemStack, maxStackSize: int)
    requires clicked != cursor
    requires 1 <= maxStackSize
    modifies clicked, cursor
    ensures Amounts(clicked.amount, cursor.amount) == Combine(old(clicked.amount), old(cursor.amount), maxStackSize)
  {
    var clickedAmount := clicked.amount;
    var cursorAmount := cursor.amount;
    var totalAmount := clickedAmount + cursorAmount;
    if totalAmount <= maxStackSize {
      clicked.amount := totalAmount;
      cursor.amount := 0;
    } else {
      clicked.amount := maxStackSize;
      cursor.amount := totalAmount - maxStackSize;
    }
  }

  /** A click with a stew on the cursor onto a stew slot. When stacking is
      enabled, both stacks are present, both are stews and the clicked stack
      has the same effects as the cursor stack, the event is cancelled and
      the two stacks are merged; otherwise nothing changes. */
  method OnInventoryClick(stackingEnabled: bool, clicked: ItemStack?, cursor: ItemStack?, maxStackSize: int)
    returns (cancelled: bool)
    requires clicked != null && cursor != null ==> clicked != cursor
    requires 1 <= maxStackSize
    modifies clicked, cursor
    ensures cancelled <==>
      stackingEnabled && clicked != null && cursor != null && clicked.isStew && cursor.isStew
      && SameEffects(clicked.meta, cursor.meta)
    ensures cancelled ==>
      Amounts(clicked.amount, cursor.amount) == Combine(old(clicked.amount), old(cursor.amount), maxStackSize)
    ensures !cancelled && clicked != null ==> clicked.amount == old(clicked.amount)
    ensures !cancelled && cursor != null ==> cursor.amount == old(cursor.amount)
  {
    if !stackingEnabled {
      return false;
    }
    cancelled := false;
    if clicked != null && cursor != null && clicked.isStew && cursor.isStew {
      var same := HaveSameEffects(clicked, cursor);
      if same {
        cancelled := true;
        StackItems(clicked, cursor, maxStackSize);
      }
    }
  }

  /** What a pickup did: nothing, merged the whole picked stack into a slot
      (the pickup is cancelled and the item entity removed), or filled a slot
      to capacity and lowered the picked amount to the remainder (the pickup
      is not cancelled and goes ahead with that remainder). */
  datatype Pickup = Ignored | FullMerge(slot: nat) | PartialMerge(slot: nat)

  /** Slot stack `s` receives (part of) the picked stack: it is a stew with
      the same effects, and either the total fits or `s` is below capacity. */
  ghost predicate Takes(s: ItemStack?, picked: ItemStack, maxStackSize: int)
    reads s, picked
  {
    s != null && s.isStew && SameEffects(s.meta, picked.meta)
    && (s.amount + picked.amount <= maxStackSize || s.amount < maxStackSize)
  }

  /** A stew picked up by a player is merged into the first slot, in slot
      order, that takes it; the search ends there even when only part of the
      picked stack fits. Every other stack keeps its amount. */
  method OnEntityPickupItem(stackingEnabled: bool, byPlayer: bool, inventory: array<ItemStack?>,
                            picked: ItemStack, maxStackSize: int)
    returns (outcome: Pickup)
    requires picked !in inventory[..]
    requires 1 <= maxStackSize
    modifies picked, inventory[..]
    ensures !(stackingEnabled && byPlayer && picked.isStew) ==> outcome == Ignored
    ensures outcome == Ignored ==>
      picked.amount == old(picked.amount) &&
      forall j :: 0 <= j < inventory.Length && inventory[j] != null ==> inventory[j].amount == old(inventory[j].amount)
    ensures outcome == Ignored && stackingEnabled && byPlayer && picked.isStew ==>
      forall j :: 0 <= j < inventory.Length ==> !old(Takes(inventory[j], picked, maxStackSize))
    ensures outcome != Ignored ==>
      outcome.slot < inventory.Length && inventory[outcome.slot] != null &&
      stackingEnabled && byPlayer && picked.isStew &&
      old(Takes(inventory[outcome.slot], picked, maxStackSize)) &&
      (forall j :: 0 <= j < outcome.slot ==> !old(Takes(inventory[j], picked, maxStackSize))) &&
      (forall j :: 0 <= j < inventory.Length && inventory[j] != null && inventory[j] != inventory[outcome.slot] ==>
         inventory[j].amount == old(inventory[j].amount))
    ensures outcome != Ignored && old(picked.amount) >= 1 ==>
      old(inventory[outcome.slot].amount) < maxStackSize
    ensures outcome.FullMerge? ==>
      old(inventory[outcome.slot].amount + picked.amount) <= maxStackSize &&
      inventory[outcome.slot].amount == old(inventory[outcome.slot].amount + picked.amount) &&
      picked.amount == old(picked.amount)
    ensures outcome.PartialMerge? ==>
      old(inventory[outcome.slot].amount + picked.amount) > maxStackSize &&
      Amounts(inventory[outcome.slot].amount, picked.amount) ==
        Combine(old(inventory[outcome.slot].amount), old(picked.amount), maxStackSize)
  {
    if !stackingEnabled || !byPlayer || !picked.isStew {
      return Ignored;
    }
    var i := 0;
    while i < inventory.Length
      invariant 0 <= i <= inventory.Length
      invariant picked.amount == old(picked.amount)
      invariant forall j :: 0 <= j < inventory.Length && inventory[j] != null ==> inventory[j].amount == old(inventory[j].amount)
      invariant forall j :: 0 <= j < i ==> !Takes(inventory[j], picked, maxStackSize)
    {
      var invItem := inventory[i];
      if invItem != null && invItem.isStew {
        var same := HaveSameEffects(invItem, picked);
        if same {
          var invAmount := invItem.amount;
          var pickAmount := picked.amount;
          var totalAmount := invAmount + pickAmount;
          if totalAmount <= maxStackSize {
            invItem.amount := totalAmount;
            return FullMerge(i);
          } else if invAmount < maxStackSize {
            var canAdd := maxStackSize - invAmount;
            invItem.amount := maxStackSize;
            picked.amount := pickAmount - canAdd;
            return PartialMerge(i);
          }
        }
      }
      i := i + 1;
    }
    return Ignored;
  }
}
