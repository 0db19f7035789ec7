/** The refresh-token collection: one record `{ token, userId }` per stored
    refresh token, and the two ways the handlers change it — rotation
    (`findOneAndDelete({ userId })` then `create`) and revocation
    (`deleteMany({ token })`). */
module RefreshTokens {
  import opened Common
  import opened Collections
  import opened Jwt

  datatype RefreshRecord = RefreshRecord(token: Tok, userId: Id)

  function Owner(u: Id): RefreshRecord -> bool
  {
    (r: RefreshRecord) => r.userId == u
  }

  /** The records `deleteMany({ token: cookie })` keeps; an absent cookie matches no stored record, so all are kept. */
  function NotHolding(cookie: Option<Tok>): RefreshRecord -> bool
  {
    (r: RefreshRecord) => cookie != Some(r.token)
  }

  /** The records of user `u`, in stored order. */
  function RecordsOf(rs: seq<RefreshRecord>, u: Id): seq<RefreshRecord>
  {
    Filter(rs, Owner(u))
  }

  /** Delete the first record of `u`, then store `t` for `u`. */
  function Rotate(rs: seq<RefreshRecord>, u: Id, t: Tok): (r: seq<RefreshRecord>)
    ensures |rs| <= |r| <= |rs| + 1
    ensures 0 < |r| && r[|r| - 1] == RefreshRecord(t, u)
  {
    RemoveFirst(rs, Owner(u)) + [RefreshRecord(t, u)]
  }

  /** Delete every record holding the cookie's token. */
  function Revoke(rs: seq<RefreshRecord>, cookie: Option<Tok>): (r: seq<RefreshRecord>)
    ensures |r| <= |rs|
    ensures forall i :: 0 <= i < |r| ==> Some(r[i].token) != cookie
  {
    Filter(rs, NotHolding(cookie))
  }

  /** The single-active-token invariant: no user owns two records. */
  ghost predicate AtMostOnePerUser(rs: seq<RefreshRecord>)
  {
    forall u :: |RecordsOf(rs, u)| <= 1
  }

  /** Every record was stored for the user its refresh token names. */
  ghost predicate Consistent(rs: seq<RefreshRecord>)
  {
    forall i :: 0 <= i < |rs| ==> rs[i].token.userId == rs[i].userId && rs[i].token.kind == Refresh
  }

  /** Every record belongs to a user id below `bound`, that is, to an id already issued. */
  ghost predicate OwnersBelow(rs: seq<RefreshRecord>, bound: int)
  {
    forall i :: 0 <= i < |rs| ==> rs[i].userId < bound
  }

  /** Rotating in a refresh token for an issued id keeps every record consistent and issued. */
  lemma RotateKeepsBounds(rs: seq<RefreshRecord>, u: Id, t: Tok, bound: int)
    requires Consistent(rs) && OwnersBelow(rs, bound)
    requires u < bound && t.userId == u && t.kind == Refresh
    ensures Consistent(Rotate(rs, u, t)) && OwnersBelow(Rotate(rs, u, t), bound)
  {
  }

  /** Revocation keeps every remaining record consistent and issued. */
  lemma RevokeKeepsBounds(rs: seq<RefreshRecord>, cookie: Option<Tok>, bound: int)
    requires Consistent(rs) && OwnersBelow(rs, bound)
    ensures Consistent(Revoke(rs, cookie)) && OwnersBelow(Revoke(rs, cookie), bound)
  {
    var kept := Revoke(rs, cookie);
    forall k | 0 <= k < |kept| ensures kept[k] in rs {
      FilterMember(rs, NotHolding(cookie), kept[k]);
    }
  }

  /** A first record for a user who has none keeps the single-active-token invariant. */
  lemma {:induction false} AppendNewOwner(rs: seq<RefreshRecord>, record: RefreshRecord)
    requires AtMostOnePerUser(rs) && OwnersBelow(rs, record.userId)
    ensures AtMostOnePerUser(rs + [record])
  {
    forall v ensures |RecordsOf(rs + [record], v)| <= 1 {
      FilterConcat(rs, [record], Owner(v));
      if v == record.userId {
        FilterNone(rs, Owner(v));
        assert RecordsOf(rs + [record], v) == [] + Filter([record], Owner(v));
      } else {
        assert |RecordsOf(rs, v)| <= 1;
        assert Filter([record], Owner(v)) == [];
      }
    }
  }

  /** Rotation for `u` leaves every other user's records as they were, in order. */
  lemma RotateKeepsOthers(rs: seq<RefreshRecord>, u: Id, t: Tok, v: Id)
    requires v != u
    ensures RecordsOf(Rotate(rs, u, t), v) == RecordsOf(rs, v)
  {
    RemoveFirstKeepsOthers(rs, Owner(u), Owner(v));
    FilterConcat(RemoveFirst(rs, Owner(u)), [RefreshRecord(t, u)], Owner(v));
  }

  /** Rotation for `u` drops at most one of `u`'s records, the oldest, and appends the new one. */
  lemma RotateOwn(rs: seq<RefreshRecord>, u: Id, t: Tok)
    ensures RecordsOf(Rotate(rs, u, t), u) ==
      (if RecordsOf(rs, u) == [] then [] else RecordsOf(rs, u)[1..]) + [RefreshRecord(t, u)]
  {
    RemoveFirstDropsHead(rs, Owner(u));
    FilterConcat(RemoveFirst(rs, Owner(u)), [RefreshRecord(t, u)], Owner(u));
  }

  /** A user with at most one record before a rotation has exactly one after it: the new token. */
  lemma RotateLeavesOne(rs: seq<RefreshRecord>, u: Id, t: Tok)
    requires |RecordsOf(rs, u)| <= 1
    ensures RecordsOf(Rotate(rs, u, t), u) == [RefreshRecord(t, u)]
  {
    RotateOwn(rs, u, t);
  }

  /** Rotation keeps the single-active-token invariant. */
  lemma RotateKeepsAtMostOne(rs: seq<RefreshRecord>, u: Id, t: Tok)
    requires AtMostOnePerUser(rs)
    ensures AtMostOnePerUser(Rotate(rs, u, t))
  {
    forall v ensures |RecordsOf(Rotate(rs, u, t), v)| <= 1 {
      if v == u {
        RotateLeavesOne(rs, u, t);
      } else {
        RotateKeepsOthers(rs, u, t, v);
      }
    }
  }

  /** Revocation removes every record holding the cookie's token and keeps every other record. */
  lemma RevokeExactly(rs: seq<RefreshRecord>, cookie: Option<Tok>)
    ensures forall x :: multiset(Revoke(rs, cookie))[x] ==
                        if cookie == Some(x.token) then 0 else multiset(rs)[x]
  {
    FilterCounts(rs, NotHolding(cookie));
  }

  /** Revocation keeps the single-active-token invariant. */
  lemma RevokeKeepsAtMostOne(rs: seq<RefreshRecord>, cookie: Option<Tok>)
    requires AtMostOnePerUser(rs)
    ensures AtMostOnePerUser(Revoke(rs, cookie))
  {
    forall v ensures |RecordsOf(Revoke(rs, cookie), v)| <= 1 {
      FilterCommute(rs, NotHolding(cookie), Owner(v));
      assert |RecordsOf(rs, v)| <= 1;
    }
  }

  /** Under the single-active-token invariant, once `u`'s token `previous` has been
      rotated to a different token, no stored record holds `previous` any more. */
  lemma RotatedTokenGone(rs: seq<RefreshRecord>, u: Id, previous: Tok, next: Tok)
    requires AtMostOnePerUser(rs) && Consistent(rs)
    requires previous.userId == u && next != previous
    ensures forall i :: 0 <= i < |Rotate(rs, u, next)| ==> Rotate(rs, u, next)[i].token != previous
  {
    var after := Rotate(rs, u, next);
    RotateLeavesOne(rs, u, next);
    forall i | 0 <= i < |after| ensures after[i].token != previous {
      FilterMember(after, Owner(u), after[i]);
      if after[i].userId != u {
        assert after[i] in RemoveFirst(rs, Owner(u));
      }
    }
  }
}
