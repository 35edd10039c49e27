/** The staking ledger consistency checks of `src/gadgets/staking_ledger.rs`. The staking
    pallet's storage is three maps: `Ledger` (controller to ledger record), `Bonded` (stash to
    controller) and `Payee` (its keys only matter here). */
module StakingLedger {
  import opened Wrappers
  import opened Ordering
  import opened Primitives

  /** A ledger record. Only `stash` is inspected; the balances travel with it. */
  datatype LedgerRecord = LedgerRecord(stash: AccountId, total: nat, active: nat)

  /** The two maps the migration rewrites. */
  datatype Stores = Stores(ledger: map<AccountId, LedgerRecord>, bonded: map<AccountId, AccountId>)

  datatype LedgerError = WrongSnapshotCount | MissingLedger(controller: AccountId)

  // ---------------------------------------------------------------------------------------
  // ledger_checks and bonded_checks

  /** The ledger stored under `controller` names a stash that is bonded back to `controller`. */
  ghost predicate LedgerConsistent(ledger: map<AccountId, LedgerRecord>, bonded: map<AccountId, AccountId>,
                                   controller: AccountId)
    requires controller in ledger
  {
    ledger[controller].stash in bonded && bonded[ledger[controller].stash] == controller
  }

  /** The controllers whose ledger `ledger_checks` reports. */
  ghost function BadControllers(ledger: map<AccountId, LedgerRecord>, bonded: map<AccountId, AccountId>)
    : set<AccountId>
  {
    set c | c in ledger && !LedgerConsistent(ledger, bonded, c)
  }

  /** `flagged` lists every bad controller exactly once, and `badStashes[i]` is the stash the
      ledger of `flagged[i]` names. */
  ghost predicate FlaggedBy(ledger: map<AccountId, LedgerRecord>, bonded: map<AccountId, AccountId>,
                            badStashes: seq<AccountId>, flagged: seq<AccountId>)
  {
    && |flagged| == |badStashes| == |BadControllers(ledger, bonded)|
    && (forall i :: 0 <= i < |flagged| ==>
          flagged[i] in BadControllers(ledger, bonded) && badStashes[i] == ledger[flagged[i]].stash)
    && (forall c :: c in BadControllers(ledger, bonded) ==> c in flagged)
    && (forall i, j :: 0 <= i < j < |flagged| ==> flagged[i] != flagged[j])
  }

  /** The order-free view of what `ledger_checks` returns, as far as membership and length go:
      one stash per bad controller, each the stash its ledger names. It is derived from
      `FlaggedBy` (lemma `FlaggedReport`), which also pins down the multiset; the contracts
      state both so that a caller can use this view without naming the ghost listing. */
  ghost predicate LedgerChecksReport(ledger: map<AccountId, LedgerRecord>, bonded: map<AccountId, AccountId>,
                                     badStashes: seq<AccountId>)
  {
    && |badStashes| == |BadControllers(ledger, bonded)|
    && (forall x :: x in badStashes ==> exists c :: c in BadControllers(ledger, bonded) && ledger[c].stash == x)
    && (forall c :: c in BadControllers(ledger, bonded) ==> ledger[c].stash in badStashes)
  }

  /** `ledger_checks`: the stash of every ledger whose stash is not bonded, or is bonded to a
      different controller, once per such ledger. `flagged` lists the controllers of the
      reported ledgers, in the (unspecified) order the map is iterated. */
  method LedgerChecks(ledger: map<AccountId, LedgerRecord>, bonded: map<AccountId, AccountId>)
    returns (badStashes: seq<AccountId>, ghost flagged: seq<AccountId>)
    ensures FlaggedBy(ledger, bonded, badStashes, flagged)
    ensures LedgerChecksReport(ledger, bonded, badStashes)
  {
    badStashes, flagged := [], [];
    var remaining := ledger.Keys;
    ghost var flaggedSet: set<AccountId> := {};
    while remaining != {}
      invariant remaining <= ledger.Keys
      invariant forall c :: c in flaggedSet <==> c in ledger && c !in remaining && !LedgerConsistent(ledger, bonded, c)
      invariant |flagged| == |badStashes| == |flaggedSet|
      invariant forall c :: c in flagged <==> c in flaggedSet
      invariant forall i :: 0 <= i < |flagged| ==> flagged[i] in ledger && badStashes[i] == ledger[flagged[i]].stash
      invariant forall i, j :: 0 <= i < j < |flagged| ==> flagged[i] != flagged[j]
      decreases |remaining|
    {
      // A witness for the `:|` below: the solver is shown that `remaining` has an element.
      ghost var someKey := Pick(remaining);
      var controller :| controller in remaining;
      var stash := ledger[controller].stash;
      if stash !in bonded || bonded[stash] != controller {
        badStashes := badStashes + [stash];
        flagged := flagged + [controller];
        flaggedSet := flaggedSet + {controller};
      }
      remaining := remaining - {controller};
    }
    forall c ensures c in flaggedSet <==> c in BadControllers(ledger, bonded) {
    }
    assert flaggedSet == BadControllers(ledger, bonded);
    FlaggedReport(ledger, bonded, badStashes, flagged);
  }

  /** A listing of the bad controllers gives the report: the stashes, up to order. */
  lemma FlaggedReport(ledger: map<AccountId, LedgerRecord>, bonded: map<AccountId, AccountId>,
                      badStashes: seq<AccountId>, flagged: seq<AccountId>)
    requires FlaggedBy(ledger, bonded, badStashes, flagged)
    ensures LedgerChecksReport(ledger, bonded, badStashes)
  {
    forall x | x in badStashes ensures exists c :: c in BadControllers(ledger, bonded) && ledger[c].stash == x {
      var i :| 0 <= i < |badStashes| && badStashes[i] == x;
      assert flagged[i] in BadControllers(ledger, bonded);
    }
    forall c | c in BadControllers(ledger, bonded) ensures ledger[c].stash in badStashes {
      var i :| 0 <= i < |flagged| && flagged[i] == c;
      assert badStashes[i] == ledger[c].stash;
    }
  }

  /** The `Bonded` pair of `stash` leads to a ledger. */
  ghost predicate HasLedger(ledger: map<AccountId, LedgerRecord>, bonded: map<AccountId, AccountId>,
                            stash: AccountId)
    requires stash in bonded
  {
    bonded[stash] in ledger
  }

  /** The `none_ledgers` of `bonded_checks`, up to order: exactly the `Bonded` pairs whose
      controller has no ledger. */
  ghost predicate NoneLedgersReport(ledger: map<AccountId, LedgerRecord>, bonded: map<AccountId, AccountId>,
                                    none: seq<(AccountId, AccountId)>)
  {
    && (forall s :: s in bonded ==> (!HasLedger(ledger, bonded, s) <==> (s, bonded[s]) in none))
    && (forall p :: p in none ==> p.0 in bonded && p.1 == bonded[p.0] && p.1 !in ledger)
  }

  /** What `bonded_checks` returns, up to order. The ledger-less pairs are `none`; the stashes
      with a ledger are `ok`; `inconsistent` pairs each such stash whose ledger names another
      stash with that stash, once per stash. Each list has one entry per `Bonded` stash it
      concerns, so its length is the number of such stashes. */
  ghost predicate BondedChecksReport(ledger: map<AccountId, LedgerRecord>, bonded: map<AccountId, AccountId>,
                                     none: seq<(AccountId, AccountId)>, inconsistent: seq<(AccountId, AccountId)>,
                                     ok: seq<AccountId>)
  {
    && NoneLedgersReport(ledger, bonded, none)
    && (forall s :: s in ok <==> s in bonded && HasLedger(ledger, bonded, s))
    && (forall p :: p in inconsistent <==>
          p.0 in bonded && HasLedger(ledger, bonded, p.0)
          && p.1 == ledger[bonded[p.0]].stash && p.1 != p.0)
    && (forall p :: p in inconsistent ==> p.0 in ok)
    && (forall i, j :: 0 <= i < j < |inconsistent| ==> inconsistent[i].0 != inconsistent[j].0)
    && |none| + |ok| == |bonded|
  }

  /** `bonded_checks`: each `Bonded` pair `(stash, controller)` goes to `none` when there is no
      ledger under `controller`, and otherwise to `ok`; in the latter case, when the ledger names
      a different stash, `(stash, ledger.stash)` also goes to `inconsistent`. */
  method BondedChecks(ledger: map<AccountId, LedgerRecord>, bonded: map<AccountId, AccountId>)
    returns (none: seq<(AccountId, AccountId)>, inconsistent: seq<(AccountId, AccountId)>, ok: seq<AccountId>)
    ensures BondedChecksReport(ledger, bonded, none, inconsistent, ok)
  {
    none, inconsistent, ok := [], [], [];
    var remaining := bonded.Keys;
    ghost var processed: set<AccountId> := {};
    while remaining != {}
      invariant remaining <= bonded.Keys && processed == bonded.Keys - remaining
      invariant Classified(ledger, bonded, processed, none, inconsistent, ok)
      decreases |remaining|
    {
      // A witness for the `:|` below: the solver is shown that `remaining` has an element.
      ghost var someKey := Pick(remaining);
      var stash :| stash in remaining;
      var controller := bonded[stash];
      if controller !in ledger {
        ClassifyNone(ledger, bonded, processed, none, inconsistent, ok, stash);
        none := none + [(stash, controller)];
      } else {
        var record := ledger[controller];
        if record.stash != stash {
          ClassifyInconsistent(ledger, bonded, processed, none, inconsistent, ok, stash);
          inconsistent := inconsistent + [(stash, record.stash)];
        } else {
          ClassifyOk(ledger, bonded, processed, none, inconsistent, ok, stash);
        }
        ok := ok + [stash];
      }
      remaining := remaining - {stash};
      processed := processed + {stash};
    }
    ClassifiedAll(ledger, bonded, none, inconsistent, ok);
  }

  /** Once every stash is processed, the classification is the one `BondedChecks` promises. */
  lemma ClassifiedAll(ledger: map<AccountId, LedgerRecord>, bonded: map<AccountId, AccountId>,
                      none: seq<(AccountId, AccountId)>, inconsistent: seq<(AccountId, AccountId)>,
                      ok: seq<AccountId>)
    requires Classified(ledger, bonded, bonded.Keys, none, inconsistent, ok)
    ensures BondedChecksReport(ledger, bonded, none, inconsistent, ok)
  {
    assert |bonded.Keys| == |bonded|;
  }

  /** What `bonded_checks` has sorted out once the stashes in `processed` are done. */
  ghost predicate Classified(ledger: map<AccountId, LedgerRecord>, bonded: map<AccountId, AccountId>,
                             processed: set<AccountId>, none: seq<(AccountId, AccountId)>,
                             inconsistent: seq<(AccountId, AccountId)>, ok: seq<AccountId>)
  {
    && processed <= bonded.Keys
    && (forall s :: s in processed && !HasLedger(ledger, bonded, s) ==> (s, bonded[s]) in none)
    && (forall p :: p in none ==> p.0 in processed && p.1 == bonded[p.0] && p.1 !in ledger)
    && (forall s :: s in ok ==> s in processed && HasLedger(ledger, bonded, s))
    && (forall s :: s in processed && HasLedger(ledger, bonded, s) ==> s in ok)
    && (forall p :: p in inconsistent ==>
          p.0 in processed && HasLedger(ledger, bonded, p.0)
          && p.1 == ledger[bonded[p.0]].stash && p.1 != p.0)
    && (forall s :: s in processed && HasLedger(ledger, bonded, s) && ledger[bonded[s]].stash != s ==>
          (s, ledger[bonded[s]].stash) in inconsistent)
    && |none| + |ok| == |processed|
    && (forall i, j :: 0 <= i < j < |none| ==> none[i].0 != none[j].0)
    && (forall i, j :: 0 <= i < j < |ok| ==> ok[i] != ok[j])
    && (forall i, j :: 0 <= i < j < |inconsistent| ==> inconsistent[i].0 != inconsistent[j].0)
  }

  lemma ClassifyNone(ledger: map<AccountId, LedgerRecord>, bonded: map<AccountId, AccountId>,
                     processed: set<AccountId>, none: seq<(AccountId, AccountId)>,
                     inconsistent: seq<(AccountId, AccountId)>, ok: seq<AccountId>, stash: AccountId)
    requires Classified(ledger, bonded, processed, none, inconsistent, ok)
    requires stash in bonded && stash !in processed && bonded[stash] !in ledger
    ensures Classified(ledger, bonded, processed + {stash}, none + [(stash, bonded[stash])], inconsistent, ok)
  {
    var none' := none + [(stash, bonded[stash])];
    assert |processed + {stash}| == |processed| + 1;
    forall i, j | 0 <= i < j < |none'| ensures none'[i].0 != none'[j].0 {
      assert none'[i] in none;
    }
  }

  lemma ClassifyInconsistent(ledger: map<AccountId, LedgerRecord>, bonded: map<AccountId, AccountId>,
                             processed: set<AccountId>, none: seq<(AccountId, AccountId)>,
                             inconsistent: seq<(AccountId, AccountId)>, ok: seq<AccountId>, stash: AccountId)
    requires Classified(ledger, bonded, processed, none, inconsistent, ok)
    requires stash in bonded && stash !in processed && bonded[stash] in ledger
    requires ledger[bonded[stash]].stash != stash
    ensures Classified(ledger, bonded, processed + {stash}, none,
                       inconsistent + [(stash, ledger[bonded[stash]].stash)], ok + [stash])
  {
    var ok' := ok + [stash];
    var inconsistent' := inconsistent + [(stash, ledger[bonded[stash]].stash)];
    assert |processed + {stash}| == |processed| + 1;
    forall i, j | 0 <= i < j < |ok'| ensures ok'[i] != ok'[j] {
      assert ok'[i] in ok;
    }
    forall i, j | 0 <= i < j < |inconsistent'| ensures inconsistent'[i].0 != inconsistent'[j].0 {
      assert inconsistent'[i] in inconsistent;
    }
  }

  lemma ClassifyOk(ledger: map<AccountId, LedgerRecord>, bonded: map<AccountId, AccountId>,
                   processed: set<AccountId>, none: seq<(AccountId, AccountId)>,
                   inconsistent: seq<(AccountId, AccountId)>, ok: seq<AccountId>, stash: AccountId)
    requires Classified(ledger, bonded, processed, none, inconsistent, ok)
    requires stash in bonded && stash !in processed && bonded[stash] in ledger
    requires ledger[bonded[stash]].stash == stash
    ensures Classified(ledger, bonded, processed + {stash}, none, inconsistent, ok + [stash])
  {
    var ok' := ok + [stash];
    assert |processed + {stash}| == |processed| + 1;
    forall i, j | 0 <= i < j < |ok'| ensures ok'[i] != ok'[j] {
      assert ok'[i] in ok;
    }
  }

  /** Both checks come back clean exactly when `Ledger` and `Bonded` pair up one to one; then
      the two maps have the same number of entries, so the count warning of
      `staking_ledger_checks` can only fire through `Payee`. */
  lemma {:induction false} CleanChecksMeanEqualCounts(ledger: map<AccountId, LedgerRecord>,
                                                      bonded: map<AccountId, AccountId>)
    requires BadControllers(ledger, bonded) == {}
    requires forall s :: s in bonded ==> HasLedger(ledger, bonded, s) && ledger[bonded[s]].stash == s
    ensures |ledger| == |bonded|
    decreases |ledger|
  {
    if ledger != map[] {
      var c := Pick(ledger.Keys);
      var s := ledger[c].stash;
      RemovePairStaysClean(ledger, bonded, c);
      CleanChecksMeanEqualCounts(ledger - {c}, bonded - {s});
      RemoveShrinks(ledger, c);
      RemoveShrinks(bonded, s);
    } else {
      if bonded != map[] {
        var s := Pick(bonded.Keys);
        assert false;
      }
    }
  }

  lemma RemoveShrinks<V>(m: map<AccountId, V>, k: AccountId)
    requires k in m
    ensures |m - {k}| == |m| - 1
  {
    assert (m - {k}).Keys + {k} == m.Keys;
    assert |(m - {k}).Keys| == |m.Keys| - 1;
  }

  /** Removing a consistent pair, the ledger under `c` and the `Bonded` entry of its stash,
      from clean stores leaves clean stores. */
  lemma RemovePairStaysClean(ledger: map<AccountId, LedgerRecord>, bonded: map<AccountId, AccountId>,
                             c: AccountId)
    requires c in ledger
    requires BadControllers(ledger, bonded) == {}
    requires forall s :: s in bonded ==> HasLedger(ledger, bonded, s) && ledger[bonded[s]].stash == s
    ensures ledger[c].stash in bonded && bonded[ledger[c].stash] == c
    ensures BadControllers(ledger - {c}, bonded - {ledger[c].stash}) == {}
    ensures forall s :: s in bonded - {ledger[c].stash} ==>
              HasLedger(ledger - {c}, bonded - {ledger[c].stash}, s)
              && (ledger - {c})[(bonded - {ledger[c].stash})[s]].stash == s
  {
    assert LedgerConsistent(ledger, bonded, c) by {
      assert c !in BadControllers(ledger, bonded);
    }
    var s := ledger[c].stash;
    var ledger', bonded' := ledger - {c}, bonded - {s};
    forall k | k in ledger' ensures LedgerConsistent(ledger', bonded', k) {
      assert k !in BadControllers(ledger, bonded);
    }
    assert BadControllers(ledger', bonded') == {};
  }

  // ---------------------------------------------------------------------------------------
  // deprecate_controller_simulation

  /** One step of the migration for the pair `(stash, controller)`: the stash is bonded to
      itself and the controller's ledger moves to the stash key. It fails when there is no
      ledger under `controller`; a ledger naming another stash is moved all the same. */
  function DeprecateOne(st: Stores, stash: AccountId, controller: AccountId): (r: Result<Stores, LedgerError>)
    ensures r.Failure? <==> controller !in st.ledger
    ensures r.Failure? ==> r.error == MissingLedger(controller)
    ensures r.Success? ==>
              r.value.bonded.Keys == st.bonded.Keys + {stash} && r.value.bonded[stash] == stash
              && (forall k :: k in st.bonded && k != stash ==> r.value.bonded[k] == st.bonded[k])
    ensures r.Success? ==>
              r.value.ledger.Keys == st.ledger.Keys - {controller} + {stash}
              && r.value.ledger[stash] == st.ledger[controller]
              && (forall k :: k in st.ledger && k != stash && k != controller ==> r.value.ledger[k] == st.ledger[k])
  {
    if controller !in st.ledger then Failure(MissingLedger(controller))
    else
      var record := st.ledger[controller];
      var bonded := st.bonded[stash := stash];
      var ledger := (st.ledger - {controller})[stash := record];
      Success(Stores(ledger, bonded))
  }

  /** The whole batch, pair by pair, stopping at the first failure. */
  function Migrate(st: Stores, batch: seq<(AccountId, AccountId)>): (r: Result<Stores, LedgerError>)
    ensures r.Failure? ==> r.error.MissingLedger? && exists p :: p in batch && r.error.controller == p.1
    decreases |batch|
  {
    if batch == [] then Success(st)
    else
      match DeprecateOne(st, batch[0].0, batch[0].1)
      case Failure(e) => Failure(e)
      case Success(next) => Migrate(next, batch[1..])
  }

  /** The migration of `batch[i..]` is the step for `batch[i]` followed by the rest. */
  lemma MigrateFirst(st: Stores, batch: seq<(AccountId, AccountId)>, i: nat)
    requires i < |batch|
    ensures Migrate(st, batch[i..]) ==
              match DeprecateOne(st, batch[i].0, batch[i].1)
              case Failure(e) => Failure(e)
              case Success(next) => Migrate(next, batch[i + 1..])
  {
    assert batch[i..][1..] == batch[i + 1..];
  }

  /** `cur` is what the first `i` pairs of `batch` made of `st`, and migrating the rest from
      there is migrating the whole batch from `st`. */
  ghost predicate MigratedUpTo(st: Stores, batch: seq<(AccountId, AccountId)>, i: nat, cur: Stores)
  {
    i <= |batch| && Migrate(st, batch[..i]) == Success(cur) && Migrate(cur, batch[i..]) == Migrate(st, batch)
  }

  lemma MigrationAdvances(st: Stores, batch: seq<(AccountId, AccountId)>, i: nat, cur: Stores)
    requires MigratedUpTo(st, batch, i, cur) && i < |batch| && batch[i].1 in cur.ledger
    ensures MigratedUpTo(st, batch, i + 1, DeprecateOne(cur, batch[i].0, batch[i].1).value)
  {
    MigrateFirst(cur, batch, i);
    MigrateSnoc(st, batch[..i], batch[i]);
    assert batch[..i + 1] == batch[..i] + [batch[i]];
  }

  lemma MigrationStops(st: Stores, batch: seq<(AccountId, AccountId)>, i: nat, cur: Stores)
    requires MigratedUpTo(st, batch, i, cur) && i < |batch| && batch[i].1 !in cur.ledger
    ensures Migrate(st, batch) == Failure(MissingLedger(batch[i].1))
    ensures FailedAfterPrefix(st, batch, cur, MissingLedger(batch[i].1))
  {
    MigrateFirst(cur, batch, i);
    assert FailedAt(st, batch, cur, MissingLedger(batch[i].1), i);
  }

  /** Migrating one more pair after a batch that succeeded is one more migration step. */
  lemma {:induction false} MigrateSnoc(st: Stores, batch: seq<(AccountId, AccountId)>, pair: (AccountId, AccountId))
    requires Migrate(st, batch).Success?
    ensures Migrate(st, batch + [pair]) == DeprecateOne(Migrate(st, batch).value, pair.0, pair.1)
    decreases |batch|
  {
    if batch != [] {
      var next := DeprecateOne(st, batch[0].0, batch[0].1).value;
      assert (batch + [pair])[1..] == batch[1..] + [pair];
      MigrateSnoc(next, batch[1..], pair);
    }
  }

  /** Every stash of a batch that migrates ends up bonded to itself. */
  lemma {:induction false} MigrateSelfBonds(st: Stores, batch: seq<(AccountId, AccountId)>)
    requires Migrate(st, batch).Success?
    ensures forall p :: p in batch ==> p.0 in Migrate(st, batch).value.bonded
                                       && Migrate(st, batch).value.bonded[p.0] == p.0
    decreases |batch|
  {
    if batch != [] {
      var next := DeprecateOne(st, batch[0].0, batch[0].1).value;
      MigrateSelfBonds(next, batch[1..]);
      MigrateKeepsSelfBond(next, batch[1..], batch[0].0);
      forall p | p in batch
        ensures p.0 in Migrate(st, batch).value.bonded && Migrate(st, batch).value.bonded[p.0] == p.0
      {
        if p != batch[0] {
          assert p in batch[1..];
        }
      }
    }
  }

  /** A stash bonded to itself stays so: the migration only ever bonds stashes to themselves. */
  lemma {:induction false} MigrateKeepsSelfBond(st: Stores, batch: seq<(AccountId, AccountId)>, s: AccountId)
    requires Migrate(st, batch).Success?
    requires s in st.bonded && st.bonded[s] == s
    ensures s in Migrate(st, batch).value.bonded && Migrate(st, batch).value.bonded[s] == s
    decreases |batch|
  {
    if batch != [] {
      var next := DeprecateOne(st, batch[0].0, batch[0].1).value;
      MigrateKeepsSelfBond(next, batch[1..], s);
    }
  }

  /** Every ledger is consistent. */
  ghost predicate AllConsistent(st: Stores)
  {
    forall c :: c in st.ledger ==> LedgerConsistent(st.ledger, st.bonded, c)
  }

  /** The pair is a consistent bond in `st`: `stash` is bonded to `controller`, whose ledger
      names `stash`. */
  ghost predicate Matched(st: Stores, stash: AccountId, controller: AccountId)
  {
    stash in st.bonded && st.bonded[stash] == controller
    && controller in st.ledger && st.ledger[controller].stash == stash
  }

  /** Migrating one consistent pair keeps every ledger consistent and leaves the ledger under
      the stash, naming it. */
  lemma DeprecateOneRepairs(st: Stores, stash: AccountId, controller: AccountId)
    requires AllConsistent(st) && Matched(st, stash, controller)
    ensures DeprecateOne(st, stash, controller).Success?
    ensures AllConsistent(DeprecateOne(st, stash, controller).value)
    ensures Matched(DeprecateOne(st, stash, controller).value, stash, stash)
  {
    var next := DeprecateOne(st, stash, controller).value;
    forall k | k in next.ledger ensures LedgerConsistent(next.ledger, next.bonded, k) {
      if k != stash {
        assert LedgerConsistent(st.ledger, st.bonded, k);
        assert st.ledger[k].stash != stash;
      }
    }
  }

  /** The stashes and controllers of a batch. */
  ghost predicate WellFormedBatch(st: Stores, batch: seq<(AccountId, AccountId)>)
  {
    (forall i :: 0 <= i < |batch| ==> Matched(st, batch[i].0, batch[i].1))
    && (forall i, j :: 0 <= i < j < |batch| ==> batch[i].0 != batch[j].0)
    && (forall i, j :: 0 <= i < |batch| && 0 <= j < |batch| && i != j ==> batch[i].1 != batch[j].0)
  }

  /** A key that no later pair touches keeps its ledger and its bond. */
  lemma {:induction false} MigrateFrame(st: Stores, batch: seq<(AccountId, AccountId)>, k: AccountId)
    requires Migrate(st, batch).Success?
    requires forall i :: 0 <= i < |batch| ==> batch[i].0 != k && batch[i].1 != k
    ensures k in st.ledger ==> k in Migrate(st, batch).value.ledger
                               && Migrate(st, batch).value.ledger[k] == st.ledger[k]
    ensures k in st.bonded ==> k in Migrate(st, batch).value.bonded
                               && Migrate(st, batch).value.bonded[k] == st.bonded[k]
    decreases |batch|
  {
    if batch != [] {
      var next := DeprecateOne(st, batch[0].0, batch[0].1).value;
      MigrateFrame(next, batch[1..], k);
    }
  }

  /** Migrating a batch of consistent pairs with distinct stashes, none of whose controllers
      is another pair's stash, succeeds, keeps every ledger consistent and leaves each stash
      bonded to itself with its ledger under its own key. */
  lemma {:induction false} MigrationRepairs(st: Stores, batch: seq<(AccountId, AccountId)>)
    requires AllConsistent(st) && WellFormedBatch(st, batch)
    ensures Migrate(st, batch).Success?
    ensures AllConsistent(Migrate(st, batch).value)
    ensures forall i :: 0 <= i < |batch| ==> Matched(Migrate(st, batch).value, batch[i].0, batch[i].0)
    decreases |batch|
  {
    if batch != [] {
      var (s, c) := batch[0];
      DeprecateOneRepairs(st, s, c);
      var next := DeprecateOne(st, s, c).value;
      var rest := batch[1..];
      forall i | 0 <= i < |rest| ensures Matched(next, rest[i].0, rest[i].1) {
        assert Matched(st, rest[i].0, rest[i].1);
        assert rest[i] == batch[i + 1];
        assert LedgerConsistent(st.ledger, st.bonded, c);
      }
      assert WellFormedBatch(next, rest) by {
        forall i, j | 0 <= i < |rest| && 0 <= j < |rest| && i != j ensures rest[i].1 != rest[j].0 {
          assert rest[i] == batch[i + 1] && rest[j] == batch[j + 1];
        }
        forall i, j | 0 <= i < j < |rest| ensures rest[i].0 != rest[j].0 {
          assert rest[i] == batch[i + 1] && rest[j] == batch[j + 1];
        }
      }
      MigrationRepairs(next, rest);
      forall i | 0 <= i < |rest| ensures rest[i].0 != s && rest[i].1 != s {
        assert rest[i] == batch[i + 1];
      }
      MigrateFrame(next, rest, s);
      forall i | 0 <= i < |batch| ensures Matched(Migrate(st, batch).value, batch[i].0, batch[i].0) {
        if i > 0 {
          assert batch[i] == rest[i - 1];
        }
      }
    }
  }

  // ---------------------------------------------------------------------------------------
  // staking_ledger_checks

  /** Which of two snapshots, by block number, is the parent: the one at index 0 when the other
      is strictly later, otherwise (a tie included) the one at index 1. */
  function ParentIndex(blockNumber0: nat, blockNumber1: nat): (p: nat)
    ensures p == 0 || p == 1
    ensures p == 0 ==> blockNumber0 < blockNumber1
    ensures p == 1 ==> blockNumber1 <= blockNumber0
    ensures blockNumber0 == blockNumber1 ==> p == 1
  {
    if blockNumber1 > blockNumber0 then 0 else 1
  }

  /** The migration of `batch` from `st` stopped at the pair with index `i`, whose controller
      has no ledger: `after` is what the pairs before it made of `st`. */
  ghost predicate FailedAt(st: Stores, batch: seq<(AccountId, AccountId)>, after: Stores, error: LedgerError,
                           i: nat)
  {
    i < |batch| && Migrate(st, batch[..i]) == Success(after)
    && batch[i].1 !in after.ledger && error == MissingLedger(batch[i].1)
  }

  /** A migration that failed left the stores as the pairs before the failing one made them. */
  ghost predicate FailedAfterPrefix(st: Stores, batch: seq<(AccountId, AccountId)>, after: Stores,
                                    error: LedgerError)
  {
    exists i: nat :: FailedAt(st, batch, after, error, i)
  }

  /** An externalities: a block's staking storage. */
  class Ext {
    const blockNumber: nat
    var ledger: map<AccountId, LedgerRecord>
    var bonded: map<AccountId, AccountId>
    var payee: set<AccountId>

    constructor(blockNumber: nat, ledger: map<AccountId, LedgerRecord>, bonded: map<AccountId, AccountId>,
                payee: set<AccountId>)
      ensures this.blockNumber == blockNumber && this.ledger == ledger
      ensures this.bonded == bonded && this.payee == payee
    {
      this.blockNumber := blockNumber;
      this.ledger := ledger;
      this.bonded := bonded;
      this.payee := payee;
    }

    function Stored(): Stores
      reads this
    {
      Stores(ledger, bonded)
    }

    /** `deprecate_controller_simulation`: migrate each pair of `batch` in turn. When a pair's
        controller has no ledger the simulation aborts there, leaving the pairs before it
        migrated. */
    method DeprecateControllerSimulation(batch: seq<(AccountId, AccountId)>) returns (r: Result<(), LedgerError>)
      modifies this
      ensures payee == old(payee)
      ensures Migrate(old(Stored()), batch).Success? ==> r.Success? && Stored() == Migrate(old(Stored()), batch).value
      ensures Migrate(old(Stored()), batch).Failure? ==> r == Failure(Migrate(old(Stored()), batch).error)
      ensures r.Failure? ==> FailedAfterPrefix(old(Stored()), batch, Stored(), r.error)
    {
      for i := 0 to |batch|
        invariant payee == old(payee)
        invariant MigratedUpTo(old(Stored()), batch, i, Stored())
      {
        var (stash, controller) := batch[i];
        if controller !in ledger {
          MigrationStops(old(Stored()), batch, i, Stored());
          return Failure(MissingLedger(controller));
        }
        MigrationAdvances(old(Stored()), batch, i, Stored());
        var record := ledger[controller];
        bonded := bonded[stash := stash];
        ledger := ledger - {controller};
        ledger := ledger[stash := record];
      }
      assert batch[..|batch|] == batch;
      return Success(());
    }
  }

  /** The counts of `Ledger`, `Bonded` and `Payee` entries. */
  datatype Counts = Counts(ledgers: nat, bonded: nat, payees: nat)

  /** What `staking_ledger_checks` reports (it logs these and returns `Ok(())`). */
  datatype Report = Report(
    parentBlock: nat,
    childBlock: nat,
    childCounts: Counts,
    outOfSync: bool,
    badLedgers: seq<AccountId>,
    noneLedgers: seq<(AccountId, AccountId)>,
    inconsistentLedgers: seq<(AccountId, AccountId)>,
    okLedgers: seq<AccountId>,
    parentBadLedgers: seq<AccountId>,
    countsAfterMigration: Counts)

  function CountsOf(ledger: map<AccountId, LedgerRecord>, bonded: map<AccountId, AccountId>, payee: set<AccountId>)
    : Counts
  {
    Counts(|ledger|, |bonded|, |payee|)
  }

  /** `staking_ledger_checks`: with exactly two snapshots, check the child block's storage, then
      run the migration of the child's ledger-less bonds on the parent block's storage. */
  method StakingLedgerChecks(exts: seq<Ext>)
    returns (r: Result<Report, LedgerError>, ghost batch: seq<(AccountId, AccountId)>,
             ghost childFlagged: seq<AccountId>, ghost parentFlagged: seq<AccountId>)
    requires |exts| == 2 ==> exts[0] != exts[1]
    modifies set i | 0 <= i < |exts| :: exts[i]
    ensures |exts| != 2 ==> r == Failure(WrongSnapshotCount)
    ensures |exts| != 2 ==> forall i :: 0 <= i < |exts| ==> unchanged(exts[i])
    ensures |exts| == 2 ==>
              var p := ParentIndex(exts[0].blockNumber, exts[1].blockNumber);
              var parent, child := exts[p], exts[1 - p];
              unchanged(child)
              && parent.payee == old(parent.payee)
              && NoneLedgersReport(child.ledger, child.bonded, batch)
              && (r.Success? <==> Migrate(old(parent.Stored()), batch).Success?)
              && (r.Success? ==>
                    r.value.parentBlock == parent.blockNumber <= r.value.childBlock == child.blockNumber
                    && r.value.childCounts == CountsOf(child.ledger, child.bonded, child.payee)
                    && (r.value.outOfSync <==> (|child.ledger| != |child.payee| || |child.ledger| != |child.bonded|))
                    && LedgerChecksReport(child.ledger, child.bonded, r.value.badLedgers)
                    && FlaggedBy(child.ledger, child.bonded, r.value.badLedgers, childFlagged)
                    && r.value.noneLedgers == batch
                    && BondedChecksReport(child.ledger, child.bonded, r.value.noneLedgers,
                                          r.value.inconsistentLedgers, r.value.okLedgers)
                    && LedgerChecksReport(old(parent.ledger), old(parent.bonded), r.value.parentBadLedgers)
                    && FlaggedBy(old(parent.ledger), old(parent.bonded), r.value.parentBadLedgers, parentFlagged)
                    && parent.Stored() == Migrate(old(parent.Stored()), batch).value
                    && r.value.countsAfterMigration == CountsOf(parent.ledger, parent.bonded, parent.payee))
              && (r.Failure? ==> FailedAfterPrefix(old(parent.Stored()), batch, parent.Stored(), r.error))
  {
    if |exts| != 2 {
      return Failure(WrongSnapshotCount), [], [], [];
    }
    var p := ParentIndex(exts[0].blockNumber, exts[1].blockNumber);
    var parent, child := exts[p], exts[1 - p];

    var childLedger, childBonded := child.ledger, child.bonded;
    var childCounts := CountsOf(childLedger, childBonded, child.payee);
    var outOfSync := childCounts.ledgers != childCounts.payees || childCounts.ledgers != childCounts.bonded;
    var badLedgers;
    badLedgers, childFlagged := LedgerChecks(childLedger, childBonded);
    var noneLedgers, inconsistentLedgers, okLedgers := BondedChecks(childLedger, childBonded);
    batch := noneLedgers;

    var parentBadLedgers;
    parentBadLedgers, parentFlagged := LedgerChecks(parent.ledger, parent.bonded);
    var migrated := parent.DeprecateControllerSimulation(noneLedgers);
    assert child.ledger == childLedger && child.bonded == childBonded;
    if migrated.Failure? {
      return Failure(migrated.error), batch, childFlagged, parentFlagged;
    }
    var after := CountsOf(parent.ledger, parent.bonded, parent.payee);
    r := Success(Report(parent.blockNumber, child.blockNumber, childCounts, outOfSync, badLedgers,
                        noneLedgers, inconsistentLedgers, okLedgers, parentBadLedgers, after));
  }
}
