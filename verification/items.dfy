/** Item stacks and the potion effects a suspicious stew carries, as the
    stacking rule sees them. */
module Items {

  datatype Option<+T> = None | Some(value: T)

  /** One custom potion effect of a stew: its effect type (by key), its
      duration in ticks and its amplifier. */
  datatype PotionEffect = PotionEffect(effectType: string, duration: int, amplifier: int)

  /** An item stack in the game. The material and the item meta are fixed for
      the life of the stack; only the amount is updated in place.
      `isStew` stands for "the material is SUSPICIOUS_STEW"; `meta` is
      `Some(effects)` when the item meta is a suspicious-stew meta (with its
      custom effects in list order) and `None` otherwise. */
  class ItemStack {
    const isStew: bool
    const meta: Option<seq<PotionEffect>>
    var amount: int
  }
}
