# Suspicious stew stacker — a Dafny model of the stacking rule

The plugin lets suspicious stews stack. Two stews may share a stack when
their custom potion effects are "the same". When they are, the plugin merges
their amounts up to a configured capacity, `maxStackSize` (default 64). It
does this on two occasions:

- A player clicks a cursor stack onto an inventory slot. The clicked stack
  takes as much as fits, and the cursor keeps the overflow.
- A player picks up a stew. It is merged into the first inventory slot, in
  slot order, that can take it. The whole stack goes in when it fits, and the
  pickup is then cancelled and the item entity removed. Otherwise the slot is
  filled to capacity, the picked stack's amount is lowered to the remainder,
  and the pickup is not cancelled: the host's own pickup goes ahead with that
  remainder.

The model has three modules:

- `Items` (items.dfy): potion effects as values. An item stack is a class
  whose `amount` is updated in place. Its material ("is a suspicious stew")
  and its item meta (a stew meta with its custom effect list, or none) are
  constant fields.
- `Effects` (effects.dfy): the equivalence check `HaveSameEffects`. It is
  written as the nested search of the source and proved equal to the
  predicate `SameEffects`. Lemmas state what kind of relation that predicate
  is.
- `Stacking` (stacking.dfy): the pure arithmetic `Combine` that both merges
  share; `StackItems` and `OnInventoryClick` on class instances; and
  `OnEntityPickupItem`, a loop over an array of nullable stacks with an early
  return after the first merge.

### Behaviour worth knowing

- Equivalence is an exists-match test, not a multiset comparison. The lists
  must have equal length, and each effect of the first list must have SOME
  equal effect in the second; a match is not used up. So `[A, A]` accepts
  `[A, B]`, while `[A, B]` rejects `[A, A]` (`Effects.NotSymmetric`). In a
  pickup the slot stack is the first argument, so a stew with effects
  `[A, B]` is merged into a stack whose effects are `[A, A]`. The test is a
  multiset comparison whenever the first list has no repeated effect
  (`Effects.ExactWhenDistinct`).
- The pickup stops after the first merge, even a partial one; it does not go
  on to fill later slots with the remainder.
- `stackItems` has no already-full case: a clicked stack at or above capacity
  is set to the capacity, and the cursor takes the rest. The pickup skips a
  full slot only because the total does not fit there.

## Model

| member | source | states |
|---|---|---|
| `Effects.HaveSameEffects` | src/main/java/com/minecraft/stewstacker/Main.java:107-134 | Returns true exactly when both metas are stew metas, the lists have equal length, and every effect of the first list has an effect in the second with equal type, duration and amplifier. A missing stew meta or a length mismatch gives false. Two empty lists are equivalent. |
| `Effects.SameEffectsReflexive` | src/main/java/com/minecraft/stewstacker/Main.java:116-133 | Every effect list is equivalent to itself. |
| `Effects.SameEffectsTransitive` | src/main/java/com/minecraft/stewstacker/Main.java:116-133 | If a is equivalent to b and b to c, then a is equivalent to c. |
| `Effects.NotSymmetric` | src/main/java/com/minecraft/stewstacker/Main.java:120-131 | Matches are not consumed: `[A, A]` is equivalent to `[A, B]`, `[A, B]` is not equivalent to `[A, A]`, and the two lists are not permutations of each other. |
| `Effects.PermutationIsSame` | src/main/java/com/minecraft/stewstacker/Main.java:116-133 | Two lists that are permutations of each other are always equivalent. |
| `Effects.ExactWhenDistinct` | src/main/java/com/minecraft/stewstacker/Main.java:116-133 | When the first list has no repeated effect, equivalence implies the lists are permutations of each other, and the second list is duplicate-free too. |
| `Effects.SymmetricWhenDistinct` | src/main/java/com/minecraft/stewstacker/Main.java:116-133 | For a duplicate-free first list, equivalence holds in both directions. |
| `Stacking.Combine` | src/main/java/com/minecraft/stewstacker/Main.java:139-148 | The merge conserves the total amount. The target never exceeds capacity. The remainder is never negative, and it is zero exactly when the total fits. When there is a remainder, the target is at capacity. A non-empty target stays non-empty. |
| `Stacking.DefaultCapacityExamples` | src/main/java/com/minecraft/stewstacker/Main.java:141-148 | With capacity 64: 40 + 20 gives (60, 0) and 50 + 20 gives (64, 6). A target at or above capacity is clamped to it: 64 + 5 gives (64, 5) and 65 + 5 gives (64, 6). |
| `Stacking.StackItems` | src/main/java/com/minecraft/stewstacker/Main.java:136-153 | The new clicked and cursor amounts are `Combine` of the old ones. So the sum is conserved, the clicked stack is at most the capacity, and the cursor is 0 exactly when the total fits, or else holds total minus capacity. |
| `Stacking.OnInventoryClick` | src/main/java/com/minecraft/stewstacker/Main.java:87-105 | The event is cancelled exactly when stacking is enabled, both stacks are present stews, and the clicked stack has the same effects as the cursor stack. In that case the amounts are merged as in `StackItems`. Otherwise both amounts are unchanged. |
| `Stacking.OnEntityPickupItem` | src/main/java/com/minecraft/stewstacker/Main.java:46-85 | Nothing happens unless stacking is on, a player picked the item up, and it is a stew. The merge goes to the first slot, in order, holding a stew with the same effects whose total fits or that is below capacity. Null, non-stew, non-equivalent and full slots before it are skipped. A full merge adds the picked amount to the slot and reports the item consumed. A partial merge fills the slot to capacity and leaves a positive remainder, with the sum conserved. Every other stack keeps its amount. If no slot qualifies, nothing changes. |

## Left out

- Plugin start and stop and their logging (`onEnable`, `onDisable`): host glue with no logic.
- Configuration loading and saving (`loadConfiguration`, `saveConfig`, `reloadConfig`): file I/O. `stackingEnabled` and `maxStackSize` are parameters.
- The `/stewstack` command (`onCommand`): permission checks and chat messages. Its only effect is setting `stackingEnabled` or reloading the configuration.
- Host effects: `event.setCancelled` and `event.getItem().remove()` are reported as the `cancelled` result of `OnInventoryClick` and the `FullMerge` outcome of `OnEntityPickupItem`. `setItemOnCursor` (writing the cursor stack back) is not modelled.
- The `setItem` write at the end of `stackItems`: it stores the clicked stack into the clicking player's own inventory at `event.getSlot()`, whichever inventory was clicked. A click in another inventory (an open chest, say) therefore also writes into the player's inventory at that slot number. The model updates the clicked stack's amount only and does not model this write.
- The `instanceof Player` test and the `Material.SUSPICIOUS_STEW` tests become a boolean parameter `byPlayer` and a boolean field `isStew`. The `instanceof SuspiciousStewMeta` test becomes an optional effect list.
- Effect types are identified by a string key. The host's own effect-type objects are not part of this model.
- Java `int` overflow: amounts are unbounded integers, so a sum of two amounts above 2^31 - 1 does not wrap around as it would in the source.
- `Stacking.StackItems`, `Stacking.OnInventoryClick`, `Stacking.OnEntityPickupItem` and `Stacking.Combine` require `maxStackSize >= 1`. The source does not clamp the configured value; a capacity below 1 would set the clicked stack to a non-positive amount.
- `Stacking.StackItems` and `Stacking.OnInventoryClick` require the clicked and cursor stacks to be different objects. `Stacking.OnEntityPickupItem` requires the picked stack not to be in the inventory. The host always supplies distinct objects.
- `Stacking.OnEntityPickupItem`: "every other stack keeps its amount" is stated per stack object, not per slot index. A stack object held by two slots would change in both.
