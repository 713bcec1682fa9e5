/**
 * The access rules of the level grid on the home screen: which cards are
 * accessible, which show the premium lock, which are disabled, and what a
 * press on a card selects.
 */
module HomeScreen {
  import opened Builtins
  import opened Levels

  /** Unlocked, and either free or covered by the premium purchase. */
  predicate IsAccessible(level: Level, hasPurchasedPremium: bool) {
    level.unlocked && (!level.requiresPurchase || hasPurchasedPremium)
  }

  /** A purchase-only level while premium has not been bought. */
  predicate IsPremiumLocked(level: Level, hasPurchasedPremium: bool) {
    level.requiresPurchase && !hasPurchasedPremium
  }

  /** The card ignores presses when it is neither accessible nor premium-locked. */
  predicate Disabled(level: Level, hasPurchasedPremium: bool) {
    !IsAccessible(level, hasPurchasedPremium) && !IsPremiumLocked(level, hasPurchasedPremium)
  }

  /** `handleLevelPress`: the level handed to `onLevelSelect`, if any. Only `unlocked` is consulted. */
  function HandleLevelPress(level: Level): (selected: Option<Level>)
    ensures selected.Some? <==> level.unlocked
    ensures selected.Some? ==> selected.value == level
  {
    if level.unlocked then Some(level) else None
  }

  /** What a press on a card selects: nothing when the card is disabled, else the press handler's choice. */
  function PressCard(level: Level, hasPurchasedPremium: bool): (selected: Option<Level>)
    ensures Disabled(level, hasPurchasedPremium) ==> selected == None
    ensures !Disabled(level, hasPurchasedPremium) ==> selected == HandleLevelPress(level)
  {
    if Disabled(level, hasPurchasedPremium) then None else HandleLevelPress(level)
  }

  lemma PremiumLockedIsNotAccessible(level: Level, hasPurchasedPremium: bool)
    ensures IsPremiumLocked(level, hasPurchasedPremium) ==> !IsAccessible(level, hasPurchasedPremium)
  {
  }

  /** Every card is in exactly one of three states: accessible, premium-locked or disabled. */
  lemma CardStatesPartition(level: Level, hasPurchasedPremium: bool)
    ensures var a, p, d := IsAccessible(level, hasPurchasedPremium), IsPremiumLocked(level, hasPurchasedPremium), Disabled(level, hasPurchasedPremium);
      (a && !p && !d) || (!a && p && !d) || (!a && !p && d)
  {
  }

  /** A card is disabled exactly when its level is locked and not behind the premium lock. */
  lemma DisabledIffLockedAndNotPremium(level: Level, hasPurchasedPremium: bool)
    ensures Disabled(level, hasPurchasedPremium) <==> !level.unlocked && !IsPremiumLocked(level, hasPurchasedPremium)
  {
  }

  /** Once premium is bought, or for a free level, access is decided by `unlocked` alone. */
  lemma AccessWithoutPremiumGate(level: Level, hasPurchasedPremium: bool)
    requires hasPurchasedPremium || !level.requiresPurchase
    ensures IsAccessible(level, hasPurchasedPremium) <==> level.unlocked
    ensures !IsPremiumLocked(level, hasPurchasedPremium)
  {
  }

  /** Disabling never stops an unlocked level: a press selects a level iff it is unlocked. */
  lemma PressSelectsIffUnlocked(level: Level, hasPurchasedPremium: bool)
    ensures PressCard(level, hasPurchasedPremium).Some? <==> level.unlocked
    ensures PressCard(level, hasPurchasedPremium).Some? ==> PressCard(level, hasPurchasedPremium).value == level
  {
    if level.unlocked {
      assert IsAccessible(level, hasPurchasedPremium) || IsPremiumLocked(level, hasPurchasedPremium);
    }
  }

  /** An accessible card selects its level when pressed. */
  lemma AccessibleIsSelectable(level: Level, hasPurchasedPremium: bool)
    requires IsAccessible(level, hasPurchasedPremium)
    ensures PressCard(level, hasPurchasedPremium) == Some(level)
  {
  }

  /**
   * The purchase flag gates the lock icon but not the press: an unlocked
   * purchase-only level is selected without premium.
   */
  lemma PremiumLockedUnlockedIsSelectable(level: Level)
    requires level.unlocked && level.requiresPurchase
    ensures IsPremiumLocked(level, false) && !IsAccessible(level, false)
    ensures PressCard(level, false) == Some(level)
  {
  }

  /** A card that reacts to presses but selects nothing is a locked purchase-only level without premium. */
  lemma EnabledButInert(level: Level, hasPurchasedPremium: bool)
    ensures !Disabled(level, hasPurchasedPremium) && PressCard(level, hasPurchasedPremium).None? <==>
      !level.unlocked && IsPremiumLocked(level, hasPurchasedPremium)
  {
  }
}
