/** packages/redirect-domain/src/validator.ts: the checks before a redirect, first failure wins. */
module Validator {
  import opened Wrappers
  import opened RedirectCache

  datatype Verdict = Valid | Inactive | Banned | Expired | MaxClicks | PasswordRequired

  /** A limit of zero is falsy in the source, so it limits nothing. */
  predicate Exhausted(link: Link) {
    link.maxClicks.Some? && link.maxClicks.value > 0 && link.clicksCount >= link.maxClicks.value
  }

  function ValidateLink(link: Link, now: int, bypassPassword: bool): Verdict {
    if !link.isActive then Inactive
    else if link.isBanned then Banned
    else if link.expiresAt.Some? && link.expiresAt.value < now then Expired
    else if Exhausted(link) then MaxClicks
    else if link.passwordHash.Some? && link.passwordHash.value != "" && !bypassPassword then PasswordRequired
    else Valid
  }

  /** A redirect goes through exactly for an open link, or one whose password need not be given. */
  lemma ValidIff(link: Link, now: int, bypassPassword: bool)
    ensures ValidateLink(link, now, bypassPassword) == Valid <==>
              && link.isActive && !link.isBanned
              && (link.expiresAt.Some? ==> now <= link.expiresAt.value)
              && (link.maxClicks.Some? ==> link.maxClicks.value == 0 || link.clicksCount < link.maxClicks.value)
              && (bypassPassword || link.passwordHash.None? || link.passwordHash == Some(""))
  {
  }

  predicate IsExpired(link: Link, now: int) {
    link.expiresAt.Some? && link.expiresAt.value < now
  }

  /** Each failure is reported exactly when its own check fails and none before it. */
  lemma FailuresAre(link: Link, now: int, bypassPassword: bool)
    ensures var v := ValidateLink(link, now, bypassPassword);
            var open := link.isActive && !link.isBanned;
            var full := exists m | link.maxClicks == Some(m) :: 0 < m <= link.clicksCount;
            var secret := exists p | link.passwordHash == Some(p) :: p != "";
            && (v == Inactive <==> !link.isActive)
            && (v == Banned <==> link.isActive && link.isBanned)
            && (v == Expired <==> open && IsExpired(link, now))
            && (v == MaxClicks <==> open && !IsExpired(link, now) && full)
            && (v == PasswordRequired <==> open && !IsExpired(link, now) && !full && secret && !bypassPassword)
  {
  }
}
