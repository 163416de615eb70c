/**
 The account issuer backfill: packages/data/src/schema/account-identity.ts and
 packages/data/src/scripts/backfill-account-issuer.ts.

 `enc` stands for encodeURIComponent, of which only injectivity matters.
 */
module IssuerBackfill {
  import opened Wrappers

  const CREDENTIAL := "credential"
  const CREDENTIAL_ISSUER := "local:credential"
  const OAUTH_PREFIX := "local:oauth:"

  datatype Account = Account(providerId: string, accountId: string, issuer: Option<string>)

  ghost predicate Injective(enc: string -> string) {
    forall a, b :: enc(a) == enc(b) ==> a == b
  }

  /** What String.trim removes: WhiteSpace and LineTerminator of ECMA-262. */
  predicate IsSpace(c: char) {
    || c in {'\t', '\n', '\U{0B}', '\U{0C}', '\r', ' ', '\U{A0}', '\U{1680}', '\U{2028}', '\U{2029}',
             '\U{202F}', '\U{205F}', '\U{3000}', '\U{FEFF}'}
    || '\U{2000}' <= c <= '\U{200A}'
  }

  predicate Blank(s: string) {
    forall c | c in s :: IsSpace(c)
  }

  /** resolveAccountIssuer; None where it throws. */
  function Resolve(enc: string -> string, providerId: string): Option<string> {
    if providerId == CREDENTIAL then Some(CREDENTIAL_ISSUER)
    else if Blank(providerId) then None
    else Some(OAUTH_PREFIX + enc(providerId))
  }

  predicate NeedsIssuer(a: Account) {
    a.issuer == None || a.issuer == Some("")
  }

  /** Different providers have different issuers, and no issuer is empty. */
  lemma {:induction false} ResolveIsInjective(enc: string -> string, p: string, q: string)
    requires Injective(enc) && Resolve(enc, p).Some? && Resolve(enc, q).Some?
    ensures Resolve(enc, p) == Resolve(enc, q) <==> p == q
    ensures Resolve(enc, p) != Some("")
  {
    if p != CREDENTIAL && q != CREDENTIAL {
      var n := |OAUTH_PREFIX|;
      assert (OAUTH_PREFIX + enc(p))[n..] == enc(p) && (OAUTH_PREFIX + enc(q))[n..] == enc(q);
    } else if p != q {
      assert CREDENTIAL_ISSUER[6] == 'c' && OAUTH_PREFIX[6] == 'o';
    }
  }

  /** The codes of the 25 characters that String.trim removes. */
  const SPACES: set<int> :=
    {0x9, 0xA, 0xB, 0xC, 0xD, 0x20, 0xA0, 0x1680, 0x2000, 0x2001, 0x2002, 0x2003, 0x2004, 0x2005, 0x2006, 0x2007,
     0x2008, 0x2009, 0x200A, 0x2028, 0x2029, 0x202F, 0x205F, 0x3000, 0xFEFF}

  /** Every provider has an issuer but the blank ones: its own name for passwords, its encoded id for others. */
  lemma {:induction false} ResolveIs(enc: string -> string, p: string)
    ensures Resolve(enc, p).None? <==> forall c | c in p :: c as int in SPACES
    ensures Resolve(enc, p).Some? && p != "credential" ==> Resolve(enc, p).value == "local:oauth:" + enc(p)
    ensures p == "credential" ==> Resolve(enc, p) == Some("local:credential")
  {
    if p == CREDENTIAL {
      assert 'c' in p;
    }
  }

  // ---- filling ----

  function Fill(enc: string -> string, a: Account): Account {
    if NeedsIssuer(a) && Resolve(enc, a.providerId).Some? then a.(issuer := Resolve(enc, a.providerId)) else a
  }

  function FillAll(enc: string -> string, rows: seq<Account>): (r: seq<Account>)
    ensures |r| == |rows| && forall i :: 0 <= i < |r| ==> r[i] == Fill(enc, rows[i])
  {
    seq(|rows|, i requires 0 <= i < |rows| => Fill(enc, rows[i]))
  }

  /** A backfill that stopped somewhere. */
  predicate PartlyFilled(enc: string -> string, rows: seq<Account>, now: seq<Account>) {
    |now| == |rows| && forall i :: 0 <= i < |rows| ==> now[i] == rows[i] || now[i] == Fill(enc, rows[i])
  }

  /** Wherever a backfill stopped, doing it again ends where one backfill ends. */
  lemma {:induction false} FillingAgain(enc: string -> string, rows: seq<Account>, now: seq<Account>)
    requires PartlyFilled(enc, rows, now)
    ensures FillAll(enc, now) == FillAll(enc, rows)
  {
    forall i | 0 <= i < |rows| ensures Fill(enc, now[i]) == Fill(enc, rows[i]) {
      ResolveIsNotEmpty(enc, rows[i].providerId);
    }
  }

  lemma {:induction false} ResolveIsNotEmpty(enc: string -> string, p: string)
    ensures Resolve(enc, p) != Some("")
  {
    if p != CREDENTIAL && !Blank(p) {
      assert |OAUTH_PREFIX + enc(p)| >= |OAUTH_PREFIX|;
    }
  }

  // ---- verifying ----

  /** What migration 0008 enforces: every issuer is there, and (issuer, accountId) is unique. */
  predicate NotNullAndUnique(rows: seq<Account>) {
    && (forall i :: 0 <= i < |rows| ==> rows[i].issuer.Some?)
    && (forall i, j :: 0 <= i < j < |rows| ==>
          !(rows[i].issuer == rows[j].issuer && rows[i].accountId == rows[j].accountId))
  }

  predicate Verified(enc: string -> string, rows: seq<Account>) {
    && (forall i :: 0 <= i < |rows| ==>
          Resolve(enc, rows[i].providerId).Some? && rows[i].issuer == Resolve(enc, rows[i].providerId))
    && (forall i, j :: 0 <= i < j < |rows| ==>
          !(rows[i].issuer == rows[j].issuer && rows[i].accountId == rows[j].accountId))
  }

  /** The update loop throws on a row that it should fill and whose provider is blank. */
  predicate Fillable(enc: string -> string, rows: seq<Account>) {
    forall i :: 0 <= i < |rows| && NeedsIssuer(rows[i]) ==> Resolve(enc, rows[i].providerId).Some?
  }

  predicate Succeeds(enc: string -> string, rows: seq<Account>) {
    Fillable(enc, rows) && Verified(enc, FillAll(enc, rows))
  }

  /** What an operator can check before the backfill. */
  predicate Ready(enc: string -> string, rows: seq<Account>) {
    && (forall i :: 0 <= i < |rows| ==> rows[i].providerId == CREDENTIAL || !Blank(rows[i].providerId))
    && (forall i :: 0 <= i < |rows| ==>
          rows[i].issuer in {None, Some(""), Resolve(enc, rows[i].providerId)})
    && (forall i, j :: 0 <= i < j < |rows| ==>
          !(rows[i].providerId == rows[j].providerId && rows[i].accountId == rows[j].accountId))
  }

  /** The backfill succeeds exactly when providers are named, old issuers are right, and identities are unique. */
  lemma {:induction false} BackfillSucceedsIff(enc: string -> string, rows: seq<Account>)
    requires Injective(enc)
    ensures Succeeds(enc, rows) <==> Ready(enc, rows)
  {
    var filled := FillAll(enc, rows);
    if Ready(enc, rows) {
      forall i, j | 0 <= i < j < |filled|
        ensures !(filled[i].issuer == filled[j].issuer && filled[i].accountId == filled[j].accountId)
      {
        ResolveIsInjective(enc, rows[i].providerId, rows[j].providerId);
      }
    }
    if Succeeds(enc, rows) {
      forall i | 0 <= i < |rows|
        ensures Resolve(enc, rows[i].providerId).Some?
        ensures !NeedsIssuer(rows[i]) ==> rows[i].issuer == Resolve(enc, rows[i].providerId)
      {
        assert filled[i].providerId == rows[i].providerId;
      }
      forall i, j | 0 <= i < j < |rows|
        ensures !(rows[i].providerId == rows[j].providerId && rows[i].accountId == rows[j].accountId)
      {
        assert filled[i].issuer == Resolve(enc, rows[i].providerId);
        assert filled[j].issuer == Resolve(enc, rows[j].providerId);
      }
    }
  }

  /** A verified backfill is what 0008 asks for. */
  lemma {:induction false} VerifiedMeetsConstraints(enc: string -> string, rows: seq<Account>)
    requires Verified(enc, rows)
    ensures NotNullAndUnique(rows)
  {
  }

  // ---- the script ----

  class AccountTable {
    var rows: seq<Account>

    /** Credential rows first, then the others one by one; stops where resolving throws. */
    method RunBackfill(enc: string -> string) returns (ok: bool)
      modifies this
      ensures ok <==> Fillable(enc, old(rows))
      ensures ok ==> rows == FillAll(enc, old(rows))
      ensures PartlyFilled(enc, old(rows), rows)
    {
      ghost var was := rows;
      rows := seq(|rows|, i requires 0 <= i < |rows| reads this =>
                    if rows[i].providerId == CREDENTIAL && NeedsIssuer(rows[i])
                    then rows[i].(issuer := Some(CREDENTIAL_ISSUER)) else rows[i]);
      for i := 0 to |rows|
        invariant |rows| == |was|
        invariant forall j :: 0 <= j < i ==>
                    rows[j] == Fill(enc, was[j]) && (NeedsIssuer(was[j]) ==> Resolve(enc, was[j].providerId).Some?)
        invariant forall j :: i <= j < |rows| ==>
                    rows[j] == if was[j].providerId == CREDENTIAL then Fill(enc, was[j]) else was[j]
      {
        if rows[i].providerId != CREDENTIAL && NeedsIssuer(rows[i]) {
          if Blank(rows[i].providerId) {
            assert NeedsIssuer(was[i]) && Resolve(enc, was[i].providerId).None?;
            return false;
          }
          rows := rows[i := rows[i].(issuer := Some(OAUTH_PREFIX + enc(rows[i].providerId)))];
        }
      }
      return true;
    }

    method BackfillAccountIssuer(enc: string -> string) returns (ok: bool)
      modifies this
      ensures ok <==> Succeeds(enc, old(rows))
      ensures ok ==> rows == FillAll(enc, old(rows)) && NotNullAndUnique(rows)
      ensures PartlyFilled(enc, old(rows), rows)
    {
      ghost var was := rows;
      var pending := exists i | 0 <= i < |rows| :: NeedsIssuer(rows[i]);
      if pending {
        var filled := RunBackfill(enc);
        if !filled {
          return false;
        }
      } else {
        assert rows == FillAll(enc, was);
      }
      ok := Verified(enc, rows);
      if ok {
        VerifiedMeetsConstraints(enc, rows);
      }
    }
  }
}
