/** Vote accounting against a per-user quota. The vote ledger maps a user to
    their `category:option` counts; the quota table maps a user to the most
    votes they may cast in total. */
module Accounting {
  import opened Dicts
  import opened VoteKeys

  type UserId = string

  /** The votes document: user -> (vote key -> count). */
  type Ledger = Dict<UserId, Dict<string, int>>

  /** The limits document: user -> total-vote ceiling. */
  type Limits = Dict<UserId, int>

  datatype VoteError = QuotaUnset | QuotaExceeded

  datatype Result<+T> = Ok(value: T) | Err(error: VoteError)

  /** `votes.get(user, {})`. */
  function UserVotes(votes: Ledger, user: UserId): Dict<string, int>
  {
    GetOr(votes, user, [])
  }

  /** Both levels of the ledger are well-formed dictionaries. */
  ghost predicate LedgerValid(votes: Ledger)
  {
    ValidDict(votes) && forall u :: ValidDict(UserVotes(votes, u))
  }

  /** `sum(votes.get(user, {}).values())`. */
  function UserTotal(votes: Ledger, user: UserId): int
  {
    SumValues(UserVotes(votes, user))
  }

  /** Every user in the ledger has a limit and has not cast more votes than it. */
  ghost predicate WithinQuota(votes: Ledger, limits: Limits)
  {
    forall u :: u in Keys(votes) ==>
      Get(limits, u).Some? && UserTotal(votes, u) <= Get(limits, u).value
  }

  /** `counts[key] = counts.get(key, 0) + 1`. */
  function AddOne(counts: Dict<string, int>, key: string): Dict<string, int>
  {
    Put(counts, key, GetOr(counts, key, 0) + 1)
  }

  /** The ledger after `user` votes for `option` of `category`, or the reason
      the vote is refused. */
  function RecordVote(votes: Ledger, limits: Limits, user: UserId,
                      category: string, option: string): Result<Ledger>
  {
    match Get(limits, user)
    case None => Err(QuotaUnset)
    case Some(limit) =>
      if UserTotal(votes, user) + 1 > limit then Err(QuotaExceeded)
      else
        var mine := UserVotes(votes, user);
        var key := MakeKey(category, option);
        Ok(Put(votes, user, AddOne(mine, key)))
  }

  /** The votes `user` has left: the limit minus the votes cast, unclamped. */
  function Remaining(votes: Ledger, limits: Limits, user: UserId): (r: Result<int>)
    ensures r.Err? <==> user !in Keys(limits)
    ensures r.Err? ==> r.error == QuotaUnset
  {
    GetFound(limits, user);
    match Get(limits, user)
    case None => Err(QuotaUnset)
    case Some(limit) => Ok(limit - UserTotal(votes, user))
  }

  /** Replacing one user's counts by a well-formed dictionary keeps the
      ledger valid and touches no other user. */
  lemma PutUser(votes: Ledger, user: UserId, mine: Dict<string, int>)
    requires LedgerValid(votes) && ValidDict(mine)
    ensures LedgerValid(Put(votes, user, mine))
    ensures UserVotes(Put(votes, user, mine), user) == mine
    ensures forall u :: u != user ==> UserVotes(Put(votes, user, mine), u) == UserVotes(votes, u)
  {
    var votes' := Put(votes, user, mine);
    PutValid(votes, user, mine);
    forall u ensures UserVotes(votes', u) == if u == user then mine else UserVotes(votes, u) {
      PutGet(votes, user, mine, u);
    }
  }

  /** A vote is refused, for one of two distinct reasons, exactly when the
      user has no limit or one more vote would exceed it. */
  lemma VoteRejected(votes: Ledger, limits: Limits, user: UserId, category: string, option: string)
    ensures RecordVote(votes, limits, user, category, option) == Err(QuotaUnset)
            <==> user !in Keys(limits)
    ensures RecordVote(votes, limits, user, category, option) == Err(QuotaExceeded)
            <==> user in Keys(limits) && UserTotal(votes, user) + 1 > Get(limits, user).value
  {
    GetFound(limits, user);
  }

  /** Every vote key in the ledger holds the separator. */
  ghost predicate KeysSeparated(votes: Ledger)
  {
    forall i, j :: 0 <= i < |votes| && 0 <= j < |votes[i].1| ==> Separator in votes[i].1[j].0
  }

  /** The ledger an accepted vote produces: the user's counts with one more
      for the key, put back under the user. */
  lemma AcceptedVote(votes: Ledger, limits: Limits, user: UserId, category: string, option: string)
    requires RecordVote(votes, limits, user, category, option).Ok?
    ensures RecordVote(votes, limits, user, category, option).value
      == Put(votes, user, AddOne(UserVotes(votes, user), MakeKey(category, option)))
  {
  }

  /** `votes.setdefault(user, {})` followed by the increment of the user's
      count is the accepted vote's ledger. */
  lemma SetDefaultThenIncrement(votes: Ledger, limits: Limits, user: UserId,
                                category: string, option: string)
    requires RecordVote(votes, limits, user, category, option).Ok?
    ensures var mine := UserVotes(votes, user);
      var key := MakeKey(category, option);
      Put(Put(votes, user, mine), user, AddOne(mine, key))
        == RecordVote(votes, limits, user, category, option).value
  {
    var mine := UserVotes(votes, user);
    var key := MakeKey(category, option);
    PutPut(votes, user, mine, AddOne(mine, key));
    AcceptedVote(votes, limits, user, category, option);
  }

  /** Adding one vote for `key` raises that count by one (from 0 when
      absent) and leaves every other key alone. */
  lemma AddOneCounts(counts: Dict<string, int>, key: string)
    ensures Get(AddOne(counts, key), key) == Some(GetOr(counts, key, 0) + 1)
    ensures forall k :: k != key ==> Get(AddOne(counts, key), k) == Get(counts, k)
    ensures ValidDict(counts) ==> ValidDict(AddOne(counts, key))
  {
    var n := GetOr(counts, key, 0) + 1;
    forall k ensures Get(Put(counts, key, n), k) == if k == key then Some(n) else Get(counts, k) {
      PutGet(counts, key, n, k);
    }
    if ValidDict(counts) {
      PutValid(counts, key, n);
    }
  }

  /** Adding one vote raises the sum of the counts by one. */
  lemma AddOneSum(counts: Dict<string, int>, key: string)
    ensures SumValues(AddOne(counts, key)) == SumValues(counts) + 1
  {
    SumPut(counts, key, GetOr(counts, key, 0) + 1);
  }

  /** A vote that is accepted adds exactly one to the user's count for the
      key `category:option`, creating the user and the key when absent,
      leaves every other key of the user and every other user as they were,
      and brings the user's total to one more than before, within the limit. */
  lemma VoteRecorded(votes: Ledger, limits: Limits, user: UserId,
                     category: string, option: string)
    requires RecordVote(votes, limits, user, category, option).Ok?
    ensures var votes' := RecordVote(votes, limits, user, category, option).value;
      && var key := MakeKey(category, option);
      && user in Keys(votes')
      && Get(UserVotes(votes', user), key) == Some(GetOr(UserVotes(votes, user), key, 0) + 1)
      && (forall k :: k != key ==> Get(UserVotes(votes', user), k) == Get(UserVotes(votes, user), k))
      && (forall u :: u != user ==> Get(votes', u) == Get(votes, u))
      && UserTotal(votes', user) == UserTotal(votes, user) + 1
      && UserTotal(votes', user) <= Get(limits, user).value
  {
    var mine := UserVotes(votes, user);
    var key := MakeKey(category, option);
    AcceptedVote(votes, limits, user, category, option);
    AddOneCounts(mine, key);
    AddOneSum(mine, key);
    var votes' := Put(votes, user, AddOne(mine, key));
    forall u ensures Get(votes', u) == if u == user then Some(AddOne(mine, key)) else Get(votes, u) {
      PutGet(votes, user, AddOne(mine, key), u);
    }
    GetFound(votes', user);
  }

  /** Votes only ever add `category:option` keys: an accepted vote keeps every
      key of the ledger holding the separator. */
  lemma VoteKeepsKeysSeparated(votes: Ledger, limits: Limits, user: UserId,
                               category: string, option: string)
    requires KeysSeparated(votes)
    requires RecordVote(votes, limits, user, category, option).Ok?
    ensures KeysSeparated(RecordVote(votes, limits, user, category, option).value)
  {
    var mine := UserVotes(votes, user);
    var key := MakeKey(category, option);
    var counts := AddOne(mine, key);
    var votes' := Put(votes, user, counts);
    AcceptedVote(votes, limits, user, category, option);
    forall e | e in mine ensures Separator in e.0 {
      GetSomeAt(votes, user);
      var i :| 0 <= i < |votes| && votes[i] == (user, mine);
      var j :| 0 <= j < |mine| && mine[j] == e;
      assert votes[i].1[j] == e;
    }
    assert key[|category|] == Separator;
    PutFrom(mine, key, GetOr(mine, key, 0) + 1);
    PutFrom(votes, user, counts);
    forall i, j | 0 <= i < |votes'| && 0 <= j < |votes'[i].1| ensures Separator in votes'[i].1[j].0 {
      assert votes'[i] in votes';
      assert votes'[i].1[j] in votes'[i].1;
      if votes'[i] in votes {
        var i0 :| 0 <= i0 < |votes| && votes[i0] == votes'[i];
        assert votes[i0].1[j] == votes'[i].1[j];
      }
    }
  }

  /** An accepted vote keeps both levels of the ledger well formed. */
  lemma VoteKeepsLedgerValid(votes: Ledger, limits: Limits, user: UserId,
                             category: string, option: string)
    requires LedgerValid(votes)
    requires RecordVote(votes, limits, user, category, option).Ok?
    ensures LedgerValid(RecordVote(votes, limits, user, category, option).value)
  {
    var mine := UserVotes(votes, user);
    var key := MakeKey(category, option);
    AcceptedVote(votes, limits, user, category, option);
    AddOneCounts(mine, key);
    PutUser(votes, user, AddOne(mine, key));
  }

  /** Accepted votes never take any user past their limit. */
  lemma VotePreservesQuota(votes: Ledger, limits: Limits, user: UserId,
                           category: string, option: string)
    requires WithinQuota(votes, limits)
    requires RecordVote(votes, limits, user, category, option).Ok?
    ensures WithinQuota(RecordVote(votes, limits, user, category, option).value, limits)
  {
    var votes' := RecordVote(votes, limits, user, category, option).value;
    VoteRecorded(votes, limits, user, category, option);
    forall u | u in Keys(votes')
      ensures Get(limits, u).Some? && UserTotal(votes', u) <= Get(limits, u).value
    {
      if u != user {
        GetFound(votes', u);
        GetFound(votes, u);
        assert UserVotes(votes', u) == UserVotes(votes, u);
      }
    }
  }

  /** The remaining count is the limit minus the votes cast; it is never
      negative while the user is within their limit, and it is positive
      exactly when another vote would be accepted. */
  lemma RemainingAgreesWithVote(votes: Ledger, limits: Limits, user: UserId,
                                category: string, option: string)
    requires user in Keys(limits)
    ensures Remaining(votes, limits, user).Ok?
    ensures Remaining(votes, limits, user).value == Get(limits, user).value - UserTotal(votes, user)
    ensures UserTotal(votes, user) <= Get(limits, user).value ==> Remaining(votes, limits, user).value >= 0
    ensures Remaining(votes, limits, user).value >= 1
            <==> RecordVote(votes, limits, user, category, option).Ok?
  {
    GetFound(limits, user);
  }

  /** Each accepted vote lowers the remaining count by exactly one. */
  lemma VoteConsumesOne(votes: Ledger, limits: Limits, user: UserId,
                        category: string, option: string)
    requires RecordVote(votes, limits, user, category, option).Ok?
    ensures Remaining(RecordVote(votes, limits, user, category, option).value, limits, user)
            == Ok(Remaining(votes, limits, user).value - 1)
  {
    VoteRecorded(votes, limits, user, category, option);
  }

  /** `limits[user] = limit`: no validation, any integer is stored. */
  function SetLimit(limits: Limits, user: UserId, limit: int): Limits
  {
    Put(limits, user, limit)
  }

  /** Setting a limit upserts exactly that user's entry. */
  lemma SetLimitUpserts(limits: Limits, user: UserId, limit: int)
    requires ValidDict(limits)
    ensures ValidDict(SetLimit(limits, user, limit))
    ensures Get(SetLimit(limits, user, limit), user) == Some(limit)
    ensures forall u :: u != user ==> Get(SetLimit(limits, user, limit), u) == Get(limits, u)
    ensures Keys(SetLimit(limits, user, limit)) ==
      if user in Keys(limits) then Keys(limits) else Keys(limits) + [user]
  {
    PutValid(limits, user, limit);
    PutKeys(limits, user, limit);
    forall u ensures Get(SetLimit(limits, user, limit), u) == if u == user then Some(limit) else Get(limits, u) {
      PutGet(limits, user, limit, u);
    }
  }

  /** A limit lowered below what a user has already cast refuses every
      further vote of theirs, while the votes already cast stay, and the
      remaining count goes negative. */
  lemma LoweredLimitBlocksVotes(votes: Ledger, limits: Limits, user: UserId, limit: int,
                                category: string, option: string)
    requires limit < UserTotal(votes, user)
    ensures RecordVote(votes, SetLimit(limits, user, limit), user, category, option) == Err(QuotaExceeded)
    ensures Remaining(votes, SetLimit(limits, user, limit), user).value < 0
  {
    PutGet(limits, user, limit, user);
  }

  /** With a limit of three and no votes yet, three votes are accepted, the
      fourth is refused as over the limit, and none remain after the third;
      lowering the limit to one then refuses votes but keeps the three. */
  lemma {:induction false} QuotaOfThree(user: UserId, category: string, option: string)
    ensures
      var limits := [(user, 3)];
      var r1 := RecordVote([], limits, user, category, option);
      && r1.Ok?
      && var r2 := RecordVote(r1.value, limits, user, category, option);
      && r2.Ok?
      && var r3 := RecordVote(r2.value, limits, user, category, option);
      && r3.Ok?
      && Remaining(r3.value, limits, user) == Ok(0)
      && RecordVote(r3.value, limits, user, category, option) == Err(QuotaExceeded)
      && RecordVote(r3.value, SetLimit(limits, user, 1), user, category, option) == Err(QuotaExceeded)
      && UserTotal(r3.value, user) == 3
  {
    var limits: Limits := [(user, 3)];
    var v0: Ledger := [];
    VoteRecorded(v0, limits, user, category, option);
    var v1 := RecordVote(v0, limits, user, category, option).value;
    VoteRecorded(v1, limits, user, category, option);
    var v2 := RecordVote(v1, limits, user, category, option).value;
    VoteRecorded(v2, limits, user, category, option);
    var v3 := RecordVote(v2, limits, user, category, option).value;
    assert UserTotal(v3, user) == 3;
  }

  /** The two persisted documents, each read and replaced whole by the
      handlers. */
  class VoteStores {
    var votes: Ledger
    var limits: Limits

    ghost predicate Valid()
      reads this
    {
      LedgerValid(votes) && ValidDict(limits)
    }

    /** At first start both documents are empty. */
    constructor ()
      ensures Valid() && votes == [] && limits == []
    {
      votes := [];
      limits := [];
    }

    /** The vote button's handler: check the quota, then add one vote for
        `category:option` to the caller's counts. */
    method Vote(user: UserId, category: string, option: string) returns (outcome: Result<()>)
      requires Valid()
      modifies this
      ensures Valid()
      ensures limits == old(limits)
      ensures outcome.Err? <==> RecordVote(old(votes), old(limits), user, category, option).Err?
      ensures outcome.Err? ==> outcome.error == RecordVote(old(votes), old(limits), user, category, option).error
      ensures outcome.Err? ==> votes == old(votes)
      ensures outcome.Ok? ==> votes == RecordVote(old(votes), old(limits), user, category, option).value
    {
      VoteRejected(votes, limits, user, category, option);
      var limit := Get(limits, user);
      if limit.None? {
        return Err(QuotaUnset);
      }
      var total := UserTotal(votes, user);
      if total + 1 > limit.value {
        return Err(QuotaExceeded);
      }
      var key := MakeKey(category, option);
      var ledger := votes;
      var mine := UserVotes(ledger, user);
      ledger := Put(ledger, user, mine);
      ledger := Put(ledger, user, AddOne(mine, key));
      SetDefaultThenIncrement(votes, limits, user, category, option);
      VoteKeepsLedgerValid(votes, limits, user, category, option);
      votes := ledger;
      outcome := Ok(());
    }

    /** The remaining-votes button's handler; changes nothing. */
    method RemainingVotes(user: UserId) returns (r: Result<int>)
      ensures r == Remaining(votes, limits, user)
    {
      var limit := Get(limits, user);
      if limit.None? {
        return Err(QuotaUnset);
      }
      var total := UserTotal(votes, user);
      r := Ok(limit.value - total);
    }

    /** The `setlimit` command: store `limit` for `user`, whatever it is. */
    method SetUserLimit(user: UserId, limit: int)
      requires Valid()
      modifies this
      ensures Valid()
      ensures limits == SetLimit(old(limits), user, limit)
      ensures votes == old(votes)
    {
      PutValid(limits, user, limit);
      limits := Put(limits, user, limit);
    }
  }
}
