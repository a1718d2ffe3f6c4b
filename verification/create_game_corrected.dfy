/**
  Codes drawn within one `createGame` call are checked only against the
  store, never against each other.  If two players draw the same code, the
  second record overwrites the first under one key: the first player and
  the owner flag are lost.  `CreateGameAsWritten` below exhibits this.

  The corrected loop also redraws a code already drawn in this call; with it
  every player keeps a record and the first player is the one owner.
*/
module CreateGameCorrected {
  import opened Wrappers
  import opened Store
  import opened Text
  import opened CreateGame
  import opened CreateGameProperties

  // ---------------------------------------------------------------------
  // The code as written

  /** Thirteen draws of 0.0. */
  const ZeroDraws: seq<Draw> := seq(13, _ => 0.0)

  const TwoPlayers: NewGameOptions := NewGameOptions("PLN", 1500, 200, 2, ["Gracz 1", "Gracz 2"])

  predicate AllZero(draws: seq<Draw>) {
    forall i :: 0 <= i < |draws| ==> draws[i] == 0.0
  }

  /** Six draws of 0.0 spell `AAAAAA`. */
  lemma ZeroDrawsSpellA(draws: seq<Draw>)
    requires |draws| == CodeLength && AllZero(draws)
    ensures CodeOf(draws) == "AAAAAA"
  {
    assert forall i :: 0 <= i < |draws| ==> CharacterAt(draws[i]) == 'A';
  }

  /** While `AAAAAA` is free, six zero draws give it to the next player. */
  lemma ZeroDrawsGiveA(s: Store, draws: seq<Draw>)
    requires s.online && Get(s.root, AccessPath("AAAAAA")) == None
    requires |draws| >= CodeLength && AllZero(draws)
    ensures DrawFreeCode(s, draws) == Ok(("AAAAAA", CodeLength))
  {
    ZeroDrawsSpellA(draws[..CodeLength]);
  }

  /** Two players, twelve zero draws: the same code twice. */
  lemma TwoPlayersShareA(s: Store, draws: seq<Draw>)
    requires s.online && Get(s.root, AccessPath("AAAAAA")) == None
    requires |draws| == 2 * CodeLength && AllZero(draws)
    ensures DrawFreeCodes(s, 2, draws) == Ok((["AAAAAA", "AAAAAA"], 2 * CodeLength))
  {
    ZeroDrawsGiveA(s, draws);
    ZeroDrawsGiveA(s, draws[CodeLength..]);
    assert DrawFreeCodes(s, 0, draws[CodeLength..][CodeLength..]) == Ok(([], 0));
    assert ["AAAAAA"] + [] == ["AAAAAA"];
    assert DrawFreeCodes(s, 1, draws[CodeLength..]) == Ok((["AAAAAA"], CodeLength));
    assert ["AAAAAA"] + ["AAAAAA"] == ["AAAAAA", "AAAAAA"];
  }

  /** A code drawn twice keeps only the later player, and that player is
      not the owner. */
  lemma RepeatedCodeDropsOwner()
    ensures var players := PlayersUpTo(["AAAAAA", "AAAAAA"], TwoPlayers.playerNames, 1500, 2);
            && players == map["AAAAAA" := PlayerRecord("Gracz 2", 1, 1500)]
            && Owners(players) == {}
  {
    OwnerIsFirstPlayer(["AAAAAA", "AAAAAA"], TwoPlayers.playerNames, 1500, 2);
    assert ["AAAAAA", "AAAAAA"][1..2] == ["AAAAAA"];
  }

  /** On an empty store, two players and thirteen zero draws: both players
      receive `AAAAAA`, and the game's players object keeps only the second
      player, so the game has no owner. */
  lemma CreateGameAsWritten()
    ensures var (r, s') := CreateGameSpec(Store(Obj(map[]), true), TwoPlayers, ZeroDraws, 0, 0);
            var players := PlayersUpTo(["AAAAAA", "AAAAAA"], TwoPlayers.playerNames, 1500, 2);
            && r == Ok(Session(100000, ["AAAAAA", "AAAAAA"]))
            && Get(s'.root, GamePath(100000)) == Some(GameRecord(TwoPlayers, players, 0, 0))
            && players == map["AAAAAA" := PlayerRecord("Gracz 2", 1, 1500)]
            && Owners(players) == {}
  {
    var s := Store(Obj(map[]), true);
    assert GetRandomInteger(MinGameId, MaxGameId, ZeroDraws[0]) == 100000;
    assert DrawFreeId(s, ZeroDraws) == Ok((100000, 1));
    var s1 := Write(s, TransactionHistoryPath(100000), Num(0));
    WriteKeepsDiverging(s, TransactionHistoryPath(100000), Num(0), AccessPath("AAAAAA"));
    TwoPlayersShareA(s1, ZeroDraws[1..]);
    CreatedSessionLayout(s, TwoPlayers, ZeroDraws, 0, 0);
    RepeatedCodeDropsOwner();
  }

  // ---------------------------------------------------------------------
  // The corrected loop

  /** The code loop, also redrawing a code already in `taken`. */
  function DrawFreshCode(s: Store, taken: seq<string>, rand: seq<Draw>): (r: Result<(string, nat), Failure>)
    ensures r.Ok? ==> CodeLength <= r.value.1 <= |rand|
    ensures r.Ok? ==> WellFormedCode(r.value.0) && r.value.0 !in taken
    ensures r.Ok? ==> CheckPlayerCodeExists(s, r.value.0) == Ok(false)
    ensures r.Err? ==> r.error == (if s.online || |rand| < CodeLength then DrawsExhausted else ReadFailed("checkPlayerCodeExists"))
    decreases |rand|
  {
    if |rand| < CodeLength then Err(DrawsExhausted)
    else
      var code := CodeOf(rand[..CodeLength]);
      match CheckPlayerCodeExists(s, code)
      case Err(e) => Err(e)
      case Ok(exists_) =>
        if !exists_ && code !in taken then Ok((code, CodeLength))
        else Shift(DrawFreshCode(s, taken, rand[CodeLength..]), CodeLength)
  }

  /** The corrected search is explained by its draws, with the codes in
      `taken` counting as taken. */
  lemma {:induction false} DrawFreshCodeFromDraws(s: Store, taken: seq<string>, rand: seq<Draw>)
    ensures SearchExplained(s, taken, rand, DrawFreshCode(s, taken, rand))
    decreases |rand|
  {
    if |rand| >= CodeLength {
      var code := CodeOf(rand[..CodeLength]);
      var check := CheckPlayerCodeExists(s, code);
      if check == Ok(false) && code !in taken {
        assert rand[..0] == [];
      } else if check.Ok? {
        DrawFreshCodeFromDraws(s, taken, rand[CodeLength..]);
        SearchExplainedMovedOn(s, taken, rand, DrawFreshCode(s, taken, rand[CodeLength..]));
      }
    }
  }


  /** One code per player, each absent from the store, outside `taken`, and
      different from every other code of the call. */
  function DrawDistinctCodes(s: Store, n: nat, taken: seq<string>, rand: seq<Draw>): (r: Result<(seq<string>, nat), Failure>)
    ensures r.Ok? ==> |r.value.0| == n && r.value.1 <= |rand|
    ensures r.Ok? ==> forall i :: 0 <= i < n ==>
                        && WellFormedCode(r.value.0[i]) && r.value.0[i] !in taken
                        && CheckPlayerCodeExists(s, r.value.0[i]) == Ok(false)
    ensures r.Ok? ==> forall i, j :: 0 <= i < j < n ==> r.value.0[i] != r.value.0[j]
    ensures r.Err? ==> n > 0
    decreases n
  {
    if n == 0 then Ok(([], 0))
    else match DrawFreshCode(s, taken, rand)
      case Err(e) => Err(e)
      case Ok((code, used)) =>
        var rest := DrawDistinctCodes(s, n - 1, taken + [code], rand[used..]);
        assert rest.Ok? ==> forall i :: 1 <= i < n ==>
          ([code] + rest.value.0)[i] == rest.value.0[i - 1] && rest.value.0[i - 1] !in taken + [code];
        Extend([code], used, rest)
  }

  /** Running the corrected loop for `n` names is running it for the first
      `i` names and then for the other `n - i` on the draws left, with the
      codes found so far taken. */
  lemma {:induction false} DrawDistinctCodesSplit(s: Store, n: nat, taken: seq<string>, rand: seq<Draw>, i: nat)
    requires i <= n && DrawDistinctCodes(s, i, taken, rand).Ok?
    ensures var first := DrawDistinctCodes(s, i, taken, rand).value;
            DrawDistinctCodes(s, n, taken, rand)
            == Extend(first.0, first.1, DrawDistinctCodes(s, n - i, taken + first.0, rand[first.1..]))
    decreases i
  {
    if i == 0 {
      assert rand[0..] == rand;
      assert taken + [] == taken;
      ExtendNothing(DrawDistinctCodes(s, n, taken, rand));
    } else {
      var d := DrawFreshCode(s, taken, rand).value;
      DrawDistinctCodesSplit(s, n - 1, taken + [d.0], rand[d.1..], i - 1);
      DrawDistinctCodesSplitStep(s, n, taken, rand, i);
    }
  }

  /** The step of `DrawDistinctCodesSplit`: the split of the draws left
      after the first code, with that code taken, gives the split of all
      the draws. */
  lemma DrawDistinctCodesSplitStep(s: Store, n: nat, taken: seq<string>, rand: seq<Draw>, i: nat)
    requires 0 < i <= n && DrawDistinctCodes(s, i, taken, rand).Ok?
    requires var d := DrawFreshCode(s, taken, rand).value;
             var rest := DrawDistinctCodes(s, i - 1, taken + [d.0], rand[d.1..]).value;
             DrawDistinctCodes(s, n - 1, taken + [d.0], rand[d.1..])
             == Extend(rest.0, rest.1, DrawDistinctCodes(s, n - i, taken + [d.0] + rest.0, rand[d.1..][rest.1..]))
    ensures var first := DrawDistinctCodes(s, i, taken, rand).value;
            DrawDistinctCodes(s, n, taken, rand)
            == Extend(first.0, first.1, DrawDistinctCodes(s, n - i, taken + first.0, rand[first.1..]))
  {
    var d := DrawFreshCode(s, taken, rand).value;
    var restPrefix := DrawDistinctCodes(s, i - 1, taken + [d.0], rand[d.1..]);
    SliceOfSlice(rand, d.1, restPrefix.value.1);
    TakenAfterTaken(taken, [d.0], restPrefix.value.0);
    ExtendStep(DrawDistinctCodes(s, n, taken, rand), DrawDistinctCodes(s, i, taken, rand), d.0, d.1,
               DrawDistinctCodes(s, n - 1, taken + [d.0], rand[d.1..]), restPrefix,
               DrawDistinctCodes(s, n - i, taken + [d.0] + restPrefix.value.0, rand[d.1..][restPrefix.value.1..]));
    var first := DrawDistinctCodes(s, i, taken, rand).value;
    assert taken + [d.0] + restPrefix.value.0 == taken + first.0;
    assert rand[d.1..][restPrefix.value.1..] == rand[first.1..];
  }

  /** A failure among the first `i` names is the failure of the whole
      corrected loop. */
  lemma {:induction false} DrawDistinctCodesPrefixFails(s: Store, n: nat, taken: seq<string>, rand: seq<Draw>, i: nat)
    requires i <= n && DrawDistinctCodes(s, i, taken, rand).Err?
    ensures DrawDistinctCodes(s, n, taken, rand) == DrawDistinctCodes(s, i, taken, rand)
    decreases i
  {
    var d := DrawFreshCode(s, taken, rand);
    if d.Ok? {
      DrawDistinctCodesPrefixFails(s, n - 1, taken + [d.value.0], rand[d.value.1..], i - 1);
    }
  }

  /** The corrected codes are the successive results of the corrected
      one-code loop: the first `i + 1` codes are the first `i` followed by
      what that loop finds in the draws they left, avoiding `taken` and the
      first `i`; and the draws used add up. */
  lemma DrawDistinctCodesFromDraws(s: Store, n: nat, taken: seq<string>, rand: seq<Draw>, i: nat)
    requires DrawDistinctCodes(s, n, taken, rand).Ok? && i < n
    ensures var first := DrawDistinctCodes(s, i, taken, rand);
            && first.Ok?
            && var d := DrawFreshCode(s, taken + first.value.0, rand[first.value.1..]);
            && d.Ok?
            && DrawDistinctCodes(s, i + 1, taken, rand) == Ok((first.value.0 + [d.value.0], first.value.1 + d.value.1))
            && DrawDistinctCodes(s, n, taken, rand).value.0[..i + 1] == first.value.0 + [d.value.0]
  {
    if DrawDistinctCodes(s, i + 1, taken, rand).Err? {
      DrawDistinctCodesPrefixFails(s, n, taken, rand, i + 1);
    }
    if DrawDistinctCodes(s, i, taken, rand).Err? {
      DrawDistinctCodesPrefixFails(s, i + 1, taken, rand, i);
    }
    DrawDistinctCodesSplit(s, n, taken, rand, i + 1);
    DrawDistinctCodesSplit(s, i + 1, taken, rand, i);
    var first := DrawDistinctCodes(s, i, taken, rand);
    var d := DrawFreshCode(s, taken + first.value.0, rand[first.value.1..]);
    assert [d.value.0] + [] == [d.value.0];
  }

  /** `createGame` with the corrected code loop. */
  function CreateGameDistinctSpec(s: Store, opts: NewGameOptions, rand: seq<Draw>, nowCreated: nat, nowExpired: nat): (r: (Result<Session, Failure>, Store))
    ensures r.1.online == s.online
    ensures r.0.Ok? ==> && s.online
                        && MinGameId <= r.0.value.newId <= MaxGameId
                        && |r.0.value.playerCodes| == |opts.playerNames|
                        && forall i, j :: 0 <= i < j < |r.0.value.playerCodes| ==>
                             r.0.value.playerCodes[i] != r.0.value.playerCodes[j]
  {
    match DrawFreeId(s, rand)
    case Err(e) => (Err(e), s)
    case Ok((id, used)) =>
      var s1 := Write(s, TransactionHistoryPath(id), Num(0));
      match DrawDistinctCodes(s1, |opts.playerNames|, [], rand[used..])
      case Err(e) => (Err(e), s1)
      case Ok((codes, _)) =>
        var n := |codes|;
        var s2 := WriteAccessUpTo(s1, codes, id, opts, n);
        var players := PlayersUpTo(codes, opts.playerNames, opts.initialBalance, n);
        (Ok(Session(id, codes)), Write(s2, GamePath(id), GameRecord(opts, players, nowCreated, nowExpired)))
  }

  /** With distinct codes every player keeps the record of its own index,
      and the first player is the one owner. */
  lemma CorrectedKeepsEveryPlayer(s: Store, opts: NewGameOptions, rand: seq<Draw>, nowCreated: nat, nowExpired: nat)
    ensures var r := CreateGameDistinctSpec(s, opts, rand, nowCreated, nowExpired).0;
            r.Ok? ==>
              var codes := r.value.playerCodes;
              var players := PlayersUpTo(codes, opts.playerNames, opts.initialBalance, |codes|);
              && |codes| == |opts.playerNames|
              && (forall i :: 0 <= i < |codes| ==>
                    codes[i] in players && players[codes[i]] == PlayerRecord(opts.playerNames[i], i, opts.initialBalance))
              && players.Keys == (set i | 0 <= i < |codes| :: codes[i])
              && (|codes| > 0 ==> Owners(players) == {codes[0]})
  {
    var d := DrawFreeId(s, rand);
    if d.Ok? {
      var s1 := Write(s, TransactionHistoryPath(d.value.0), Num(0));
      var dc := DrawDistinctCodes(s1, |opts.playerNames|, [], rand[d.value.1..]);
      if dc.Ok? {
        var codes := dc.value.0;
        var n := |codes|;
        forall i | 0 <= i < n
          ensures codes[i] in PlayersUpTo(codes, opts.playerNames, opts.initialBalance, n)
          ensures PlayersUpTo(codes, opts.playerNames, opts.initialBalance, n)[codes[i]] == PlayerRecord(opts.playerNames[i], i, opts.initialBalance)
        {
          PlayersEntry(codes, opts.playerNames, opts.initialBalance, n, i);
        }
        PlayersKeys(codes, opts.playerNames, opts.initialBalance, n);
        if n > 0 {
          OwnerIsFirstPlayer(codes, opts.playerNames, opts.initialBalance, n);
        }
      }
    }
  }

  /** On a reachable store the corrected code loop fails only for lack of
      draws: the first `m` codes were found with `k` draws, and every
      complete six-draw block after them spelled a code that exists or was
      found or taken before. */
  lemma {:induction false} DrawDistinctCodesFailure(s: Store, n: nat, taken: seq<string>, rand: seq<Draw>) returns (m: nat, k: nat)
    requires s.online && DrawDistinctCodes(s, n, taken, rand).Err?
    ensures DrawDistinctCodes(s, n, taken, rand).error == DrawsExhausted
    ensures m < n && k <= |rand| && DrawDistinctCodes(s, m, taken, rand).Ok? && DrawDistinctCodes(s, m, taken, rand).value.1 == k
    ensures var found := taken + DrawDistinctCodes(s, m, taken, rand).value.0;
            DrawFreshCode(s, found, rand[k..]).Err? && BlocksTaken(s, found, rand[k..])
    decreases n
  {
    var d := DrawFreshCode(s, taken, rand);
    if d.Ok? {
      var used := d.value.1;
      var m', k' := DrawDistinctCodesFailure(s, n - 1, taken + [d.value.0], rand[used..]);
      m, k := m' + 1, k' + used;
      var first := DrawDistinctCodes(s, m', taken + [d.value.0], rand[used..]);
      assert DrawDistinctCodes(s, m, taken, rand) == Extend([d.value.0], used, first);
      assert taken + ([d.value.0] + first.value.0) == (taken + [d.value.0]) + first.value.0;
      assert rand[used..][k'..] == rand[k..];
    } else {
      m, k := 0, 0;
      assert rand[0..] == rand;
      assert taken + [] == taken;
      DrawFreshCodeFromDraws(s, taken, rand);
    }
  }

  /** The correction fails as the code as written does: an unreachable
      store rethrows the first id check and writes nothing; a reachable
      store fails only when the draws run out, either in the id loop, with
      every id drawn present, or in the corrected code loop. */
  lemma CorrectedFailsAsBefore(s: Store, opts: NewGameOptions, rand: seq<Draw>, nowCreated: nat, nowExpired: nat)
    ensures !s.online && |rand| > 0 ==>
              CreateGameDistinctSpec(s, opts, rand, nowCreated, nowExpired) == (Err(ReadFailed("checkIdExists")), s)
    ensures s.online && CreateGameDistinctSpec(s, opts, rand, nowCreated, nowExpired).0.Err? ==>
              CreateGameDistinctSpec(s, opts, rand, nowCreated, nowExpired).0.error == DrawsExhausted
    ensures s.online && CreateGameDistinctSpec(s, opts, rand, nowCreated, nowExpired).0.Err? ==>
              || (forall j :: 0 <= j < |rand| ==> CheckIdExists(s, GetRandomInteger(MinGameId, MaxGameId, rand[j])) == Ok(true))
              || (&& DrawFreeId(s, rand).Ok?
                  && var s1 := Write(s, TransactionHistoryPath(DrawFreeId(s, rand).value.0), Num(0));
                     DrawDistinctCodes(s1, |opts.playerNames|, [], rand[DrawFreeId(s, rand).value.1..]).Err?)
  {
    var d := DrawFreeId(s, rand);
    if s.online && d.Ok? {
      var s1 := Write(s, TransactionHistoryPath(d.value.0), Num(0));
      var dc := DrawDistinctCodes(s1, |opts.playerNames|, [], rand[d.value.1..]);
      if dc.Err? {
        var m, k := DrawDistinctCodesFailure(s1, |opts.playerNames|, [], rand[d.value.1..]);
      }
    }
  }
}
