/**
  What one `createGame` call guarantees about the session it allocates and
  the records it writes, stated on `CreateGame.CreateGameSpec` (which the
  method `CreateGame.CreateGame` is proved to compute).
*/
module CreateGameProperties {
  import opened Wrappers
  import opened Store
  import opened Text
  import opened CreateGame

  // ---------------------------------------------------------------------
  // The players object

  /** The `players` entry of an owner. */
  predicate IsOwnerRecord(n: Node) {
    n.Obj? && "isBank" in n.fields && n.fields["isBank"] == Str("owner")
  }

  /** The codes whose player record is flagged `owner`. */
  function Owners(players: map<string, Node>): set<string> {
    set c | c in players && IsOwnerRecord(players[c])
  }

  /** A player record holds the name, the initial balance, `offline` and
      the bank flag (`owner` for the first player, `"false"` for the
      others), and nothing else. */
  lemma PlayerRecordFields(name: string, index: nat, balance: int)
    ensures var r := PlayerRecord(name, index, balance);
            && r.Obj? && r.fields.Keys == {"name", "isBank", "balance", "status"}
            && r.fields["name"] == Str(name) && r.fields["balance"] == Num(balance)
            && r.fields["status"] == Str("offline")
            && r.fields["isBank"] == Str(if index == 0 then "owner" else "false")
  {
  }

  /** Only the first index is flagged `owner`. */
  lemma OwnerRecordIsIndexZero(name: string, index: nat, balance: int)
    ensures IsOwnerRecord(PlayerRecord(name, index, balance)) <==> index == 0
  {
  }

  /** The players object has one key per distinct code. */
  lemma {:induction false} PlayersKeys(codes: seq<string>, names: seq<string>, balance: int, n: nat)
    requires n <= |codes| && n <= |names|
    ensures PlayersUpTo(codes, names, balance, n).Keys == set i | 0 <= i < n :: codes[i]
  {
    if n > 0 {
      PlayersKeys(codes, names, balance, n - 1);
      assert (set i | 0 <= i < n :: codes[i]) == (set i | 0 <= i < n - 1 :: codes[i]) + {codes[n - 1]};
    }
  }

  /** Every entry is the record written for the last index holding its code. */
  lemma {:induction false} PlayersLastWriter(codes: seq<string>, names: seq<string>, balance: int, n: nat, c: string)
    returns (j: nat)
    requires n <= |codes| && n <= |names|
    requires c in PlayersUpTo(codes, names, balance, n)
    ensures j < n && codes[j] == c
    ensures forall l :: j < l < n ==> codes[l] != c
    ensures PlayersUpTo(codes, names, balance, n)[c] == PlayerRecord(names[j], j, balance)
  {
    if codes[n - 1] == c {
      j := n - 1;
    } else {
      j := PlayersLastWriter(codes, names, balance, n - 1, c);
    }
  }

  /** A code drawn for index `i` and not drawn again later keeps player `i`. */
  lemma {:induction false} PlayersEntry(codes: seq<string>, names: seq<string>, balance: int, n: nat, i: nat)
    requires n <= |codes| && n <= |names| && i < n
    requires forall l :: i < l < n ==> codes[l] != codes[i]
    ensures codes[i] in PlayersUpTo(codes, names, balance, n)
    ensures PlayersUpTo(codes, names, balance, n)[codes[i]] == PlayerRecord(names[i], i, balance)
  {
    if i < n - 1 {
      PlayersEntry(codes, names, balance, n - 1, i);
    }
  }

  /** Every stored player starts with the initial balance, offline, under one
      of the given names. */
  lemma PlayersStartFresh(codes: seq<string>, names: seq<string>, balance: int, n: nat, c: string)
    requires n <= |codes| && n <= |names|
    requires c in PlayersUpTo(codes, names, balance, n)
    ensures var p := PlayersUpTo(codes, names, balance, n)[c];
            && p.Obj? && "balance" in p.fields && "status" in p.fields && "name" in p.fields
            && p.fields["balance"] == Num(balance) && p.fields["status"] == Str("offline")
            && p.fields["name"].Str? && p.fields["name"].s in names[..n]
  {
    var j := PlayersLastWriter(codes, names, balance, n, c);
    assert names[..n][j] == names[j];
  }

  /** There is at most one owner: the first player, and only if no later
      player drew the same code. */
  lemma OwnerIsFirstPlayer(codes: seq<string>, names: seq<string>, balance: int, n: nat)
    requires 0 < n <= |codes| && n <= |names|
    ensures Owners(PlayersUpTo(codes, names, balance, n)) == if codes[0] in codes[1..n] then {} else {codes[0]}
  {
    var m := PlayersUpTo(codes, names, balance, n);
    var expected: set<string> := if codes[0] in codes[1..n] then {} else {codes[0]};
    forall c | c in Owners(m) ensures c in expected {
      var j := PlayersLastWriter(codes, names, balance, n, c);
      OwnerRecordIsIndexZero(names[j], j, balance);
    }
    forall c | c in expected ensures c in Owners(m) {
      assert forall l :: 0 < l < n ==> codes[l] == codes[1..n][l - 1];
      PlayersEntry(codes, names, balance, n, 0);
    }
  }

  // ---------------------------------------------------------------------
  // The access records

  /** The welcome notification is number 1, unread, and stamped by the
      server. */
  lemma WelcomeNotificationFields(opts: NewGameOptions)
    ensures var r := WelcomeNotification(opts);
            && r.Obj? && r.fields.Keys == {"id", "type", "textPrimary", "textSecondary", "timestamp", "read"}
            && r.fields["id"] == Num(1) && r.fields["type"] == Str("info")
            && r.fields["read"] == Bool(false) && r.fields["timestamp"] == ServerTime
  {
  }

  /** Read by path, an access record names its game and token and holds
      the unread welcome notification under `notifications/1`, as its only
      notification. */
  lemma AccessRecordLayout(id: int, token: string, opts: NewGameOptions)
    ensures var r := AccessRecord(id, token, opts);
            && r.Obj? && r.fields.Keys == {"gameID", "token", "notifications"}
            && Get(r, ["gameID"]) == Some(Num(id)) && Get(r, ["token"]) == Some(Str(token))
            && Get(r, ["notifications", "1"]) == Some(WelcomeNotification(opts))
            && Get(r, ["notifications", "1", "read"]) == Some(Bool(false))
            && r.fields["notifications"] == Obj(map["1" := WelcomeNotification(opts)])
  {
    var r := AccessRecord(id, token, opts);
    var w := WelcomeNotification(opts);
    assert ["notifications", "1"][1..] == ["1"] && ["notifications", "1", "read"][1..] == ["1", "read"];
    assert ["1", "read"][1..] == ["read"];
    assert Get(w, ["read"]) == Some(Bool(false));
    assert Get(r.fields["notifications"], ["1", "read"]) == Get(w, ["read"]);
  }

  /** After the writes, every code among the first `n` has its access record. */
  lemma {:induction false} AccessWritten(s: Store, codes: seq<string>, id: int, opts: NewGameOptions, n: nat, i: nat)
    requires s.online && i < n <= |codes|
    ensures Get(WriteAccessUpTo(s, codes, id, opts, n).root, AccessPath(codes[i])) == Some(AccessRecord(id, TokenPlaceholder, opts))
  {
    var before := WriteAccessUpTo(s, codes, id, opts, n - 1);
    if i < n - 1 && codes[n - 1] != codes[i] {
      AccessWritten(s, codes, id, opts, n - 1, i);
      WriteKeepsDiverging(before, AccessPath(codes[n - 1]), AccessRecord(id, TokenPlaceholder, opts), AccessPath(codes[i]));
    }
  }

  /** The access writes touch nothing outside `/access/{code}`. */
  lemma {:induction false} AccessWritesKeep(s: Store, codes: seq<string>, id: int, opts: NewGameOptions, n: nat, q: Path)
    requires n <= |codes|
    requires forall j :: 0 <= j < n ==> Diverge(AccessPath(codes[j]), q)
    ensures Get(WriteAccessUpTo(s, codes, id, opts, n).root, q) == Get(s.root, q)
  {
    if n > 0 {
      AccessWritesKeep(s, codes, id, opts, n - 1, q);
      WriteKeepsDiverging(WriteAccessUpTo(s, codes, id, opts, n - 1), AccessPath(codes[n - 1]), AccessRecord(id, TokenPlaceholder, opts), q);
    }
  }

  // ---------------------------------------------------------------------
  // One call

  /** Different game ids have diverging game paths and diverging counter
      paths, so the records of two games never overwrite each other. */
  lemma GamePathsDiverge(a: int, b: int)
    requires a != b
    ensures Diverge(GamePath(a), GamePath(b))
    ensures Diverge(TransactionHistoryPath(a), TransactionHistoryPath(b))
  {
    ToNumberOfIntToString(a);
    ToNumberOfIntToString(b);
    var ta := "game-" + IntToString(a);
    var tb := "game-" + IntToString(b);
    assert ta[5..] == IntToString(a) && tb[5..] == IntToString(b);
    assert ta != tb;
    assert GamePath(a)[1] == ta && GamePath(b)[1] == tb;
    assert TransactionHistoryPath(a)[1] == IntToString(a) && TransactionHistoryPath(b)[1] == IntToString(b);
  }

  /** The game id is six digits, lies in [100000, 999999], and `/ids/{id}`
      was absent when it was last checked. */
  lemma CreatedIdIsFreeAndSixDigit(s: Store, opts: NewGameOptions, rand: seq<Draw>, nowCreated: nat, nowExpired: nat)
    ensures var r := CreateGameSpec(s, opts, rand, nowCreated, nowExpired).0;
            r.Ok? ==> && MinGameId <= r.value.newId <= MaxGameId
                      && |IntToString(r.value.newId)| == 6
                      && s.online && Get(s.root, IdPath(r.value.newId)) == None
  {
    var d := DrawFreeId(s, rand);
    if d.Ok? {
      assert Pow10(5) == 100000 && Pow10(6) == 1000000;
      NatToStringLength(d.value.0, 6);
    }
  }

  /** One well-formed code per player name, each absent from `/access` when
      it was last checked.  The codes are checked after the `/ids` write,
      which cannot touch `/access`, so they were absent from the store the
      call started with. */
  lemma CreatedCodesAreFreeAndWellFormed(s: Store, opts: NewGameOptions, rand: seq<Draw>, nowCreated: nat, nowExpired: nat)
    ensures var r := CreateGameSpec(s, opts, rand, nowCreated, nowExpired).0;
            r.Ok? ==> && |r.value.playerCodes| == |opts.playerNames|
                      && forall i :: 0 <= i < |r.value.playerCodes| ==>
                           WellFormedCode(r.value.playerCodes[i]) && Get(s.root, AccessPath(r.value.playerCodes[i])) == None
  {
    var d := DrawFreeId(s, rand);
    if d.Ok? {
      var id := d.value.0;
      var s1 := Write(s, TransactionHistoryPath(id), Num(0));
      var dc := DrawFreeCodes(s1, |opts.playerNames|, rand[d.value.1..]);
      if dc.Ok? {
        forall i | 0 <= i < |dc.value.0|
          ensures Get(s.root, AccessPath(dc.value.0[i])) == None
        {
          WriteKeepsDiverging(s, TransactionHistoryPath(id), Num(0), AccessPath(dc.value.0[i]));
        }
      }
    }
  }

  /** The reply carries the id, the first code and the placeholder token. */
  lemma CreatedReply(s: Store, opts: NewGameOptions, rand: seq<Draw>, nowCreated: nat, nowExpired: nat)
    requires |opts.playerNames| > 0
    ensures var r := CreateGameSpec(s, opts, rand, nowCreated, nowExpired).0;
            r.Ok? ==> Reply(r) == Ok(Created(r.value.newId, Some(r.value.playerCodes[0]), "empty"))
  {
    CreatedCodesAreFreeAndWellFormed(s, opts, rand, nowCreated, nowExpired);
  }

  /** After a successful call the store holds the transaction counter 0, one
      access record per code pointing at the game, and the game record with
      the players object. */
  lemma CreatedSessionLayout(s: Store, opts: NewGameOptions, rand: seq<Draw>, nowCreated: nat, nowExpired: nat)
    ensures var (r, s') := CreateGameSpec(s, opts, rand, nowCreated, nowExpired);
            r.Ok? ==>
              var id := r.value.newId;
              var codes := r.value.playerCodes;
              && |codes| == |opts.playerNames|
              && s'.online
              && Get(s'.root, TransactionHistoryPath(id)) == Some(Num(0))
              && (forall i :: 0 <= i < |codes| ==>
                    Get(s'.root, AccessPath(codes[i])) == Some(AccessRecord(id, TokenPlaceholder, opts)))
              && Get(s'.root, GamePath(id)) ==
                   Some(GameRecord(opts, PlayersUpTo(codes, opts.playerNames, opts.initialBalance, |codes|), nowCreated, nowExpired))
  {
    var d := DrawFreeId(s, rand);
    if d.Ok? {
      var id := d.value.0;
      var s1 := Write(s, TransactionHistoryPath(id), Num(0));
      var dc := DrawFreeCodes(s1, |opts.playerNames|, rand[d.value.1..]);
      if dc.Ok? {
        var codes := dc.value.0;
        var n := |codes|;
        var s2 := WriteAccessUpTo(s1, codes, id, opts, n);
        var game := GameRecord(opts, PlayersUpTo(codes, opts.playerNames, opts.initialBalance, n), nowCreated, nowExpired);
        AccessWritesKeep(s1, codes, id, opts, n, TransactionHistoryPath(id));
        WriteKeepsDiverging(s2, GamePath(id), game, TransactionHistoryPath(id));
        forall i | 0 <= i < n
          ensures Get(Write(s2, GamePath(id), game).root, AccessPath(codes[i])) == Some(AccessRecord(id, TokenPlaceholder, opts))
        {
          AccessWritten(s1, codes, id, opts, n, i);
          WriteKeepsDiverging(s2, GamePath(id), game, AccessPath(codes[i]));
        }
      }
    }
  }

  /** A successful call changes nothing outside the paths it writes. */
  lemma CreateGameTouchesOnlyItsPaths(s: Store, opts: NewGameOptions, rand: seq<Draw>, nowCreated: nat, nowExpired: nat, q: Path)
    requires CreateGameSpec(s, opts, rand, nowCreated, nowExpired).0.Ok?
    requires var session := CreateGameSpec(s, opts, rand, nowCreated, nowExpired).0.value;
             && Diverge(TransactionHistoryPath(session.newId), q)
             && Diverge(GamePath(session.newId), q)
             && forall c :: c in session.playerCodes ==> Diverge(AccessPath(c), q)
    ensures Get(CreateGameSpec(s, opts, rand, nowCreated, nowExpired).1.root, q) == Get(s.root, q)
  {
    var d := DrawFreeId(s, rand);
    var id := d.value.0;
    var s1 := Write(s, TransactionHistoryPath(id), Num(0));
    var dc := DrawFreeCodes(s1, |opts.playerNames|, rand[d.value.1..]);
    var codes := dc.value.0;
    var n := |codes|;
    var s2 := WriteAccessUpTo(s1, codes, id, opts, n);
    var game := GameRecord(opts, PlayersUpTo(codes, opts.playerNames, opts.initialBalance, n), nowCreated, nowExpired);
    WriteKeepsDiverging(s, TransactionHistoryPath(id), Num(0), q);
    assert forall j :: 0 <= j < n ==> codes[j] in codes;
    AccessWritesKeep(s1, codes, id, opts, n, q);
    WriteKeepsDiverging(s2, GamePath(id), game, q);
  }

  /** An unreachable store: the first id check is rethrown and nothing is
      written.  A reachable store fails only when the draws run out, either
      in the id loop, with every id drawn present, or in the code loop. */
  lemma CreateGameFailures(s: Store, opts: NewGameOptions, rand: seq<Draw>, nowCreated: nat, nowExpired: nat)
    ensures !s.online && |rand| > 0 ==>
              CreateGameSpec(s, opts, rand, nowCreated, nowExpired) == (Err(ReadFailed("checkIdExists")), s)
    ensures s.online && CreateGameSpec(s, opts, rand, nowCreated, nowExpired).0.Err? ==>
              CreateGameSpec(s, opts, rand, nowCreated, nowExpired).0.error == DrawsExhausted
    ensures s.online && CreateGameSpec(s, opts, rand, nowCreated, nowExpired).0.Err? ==>
              || (forall j :: 0 <= j < |rand| ==> CheckIdExists(s, GetRandomInteger(MinGameId, MaxGameId, rand[j])) == Ok(true))
              || (&& DrawFreeId(s, rand).Ok?
                  && var s1 := Write(s, TransactionHistoryPath(DrawFreeId(s, rand).value.0), Num(0));
                     DrawFreeCodes(s1, |opts.playerNames|, rand[DrawFreeId(s, rand).value.1..]).Err?)
  {
    var d := DrawFreeId(s, rand);
    if s.online && d.Ok? {
      var s1 := Write(s, TransactionHistoryPath(d.value.0), Num(0));
      var dc := DrawFreeCodes(s1, |opts.playerNames|, rand[d.value.1..]);
      if dc.Err? {
        var m, k := DrawFreeCodesFailure(s1, |opts.playerNames|, rand[d.value.1..]);
      }
    }
  }

  /** Dropping `a` draws and then `b` more drops `a + b`. */
  lemma SliceOfSlice<T>(xs: seq<T>, a: nat, b: nat)
    requires a + b <= |xs|
    ensures xs[a..][b..] == xs[a + b..]
  {
  }

  /** Codes taken one after the other are the codes taken together. */
  lemma TakenAfterTaken<T>(taken: seq<T>, first: seq<T>, more: seq<T>)
    ensures taken + first + more == taken + (first + more)
  {
  }

  /** Running the code loop for `n` names is running it for the first `i`
      names and then for the other `n - i` on the draws left. */
  lemma {:induction false} DrawFreeCodesSplit(s: Store, n: nat, rand: seq<Draw>, i: nat)
    requires i <= n && DrawFreeCodes(s, i, rand).Ok?
    ensures var first := DrawFreeCodes(s, i, rand).value;
            DrawFreeCodes(s, n, rand) == Extend(first.0, first.1, DrawFreeCodes(s, n - i, rand[first.1..]))
    decreases i
  {
    if i == 0 {
      assert rand[0..] == rand;
      ExtendNothing(DrawFreeCodes(s, n, rand));
    } else {
      var used := DrawFreeCode(s, rand).value.1;
      DrawFreeCodesSplit(s, n - 1, rand[used..], i - 1);
      DrawFreeCodesSplitStep(s, n, rand, i);
    }
  }

  /** The step of `DrawFreeCodesSplit`: the split of the draws left after
      the first code gives the split of all the draws. */
  lemma DrawFreeCodesSplitStep(s: Store, n: nat, rand: seq<Draw>, i: nat)
    requires 0 < i <= n && DrawFreeCodes(s, i, rand).Ok?
    requires var used := DrawFreeCode(s, rand).value.1;
             var rest := DrawFreeCodes(s, i - 1, rand[used..]).value;
             DrawFreeCodes(s, n - 1, rand[used..]) == Extend(rest.0, rest.1, DrawFreeCodes(s, n - i, rand[used..][rest.1..]))
    ensures var first := DrawFreeCodes(s, i, rand).value;
            DrawFreeCodes(s, n, rand) == Extend(first.0, first.1, DrawFreeCodes(s, n - i, rand[first.1..]))
  {
    var d := DrawFreeCode(s, rand).value;
    var restPrefix := DrawFreeCodes(s, i - 1, rand[d.1..]);
    SliceOfSlice(rand, d.1, restPrefix.value.1);
    ExtendStep(DrawFreeCodes(s, n, rand), DrawFreeCodes(s, i, rand), d.0, d.1,
               DrawFreeCodes(s, n - 1, rand[d.1..]), restPrefix,
               DrawFreeCodes(s, n - i, rand[d.1..][restPrefix.value.1..]));
  }

  /** A failure among the first `i` names is the failure of the whole
      loop. */
  lemma {:induction false} DrawFreeCodesPrefixFails(s: Store, n: nat, rand: seq<Draw>, i: nat)
    requires i <= n && DrawFreeCodes(s, i, rand).Err?
    ensures DrawFreeCodes(s, n, rand) == DrawFreeCodes(s, i, rand)
    decreases i
  {
    var d := DrawFreeCode(s, rand);
    if d.Ok? {
      DrawFreeCodesPrefixFails(s, n - 1, rand[d.value.1..], i - 1);
    }
  }

  /** The codes of a successful loop are the successive results of the
      one-code loop: the first `i + 1` codes are the first `i` followed by
      what the one-code loop finds in the draws those left, and the draws
      used add up. */
  lemma DrawFreeCodesFromDraws(s: Store, n: nat, rand: seq<Draw>, i: nat)
    requires DrawFreeCodes(s, n, rand).Ok? && i < n
    ensures var first := DrawFreeCodes(s, i, rand);
            && first.Ok?
            && var d := DrawFreeCode(s, rand[first.value.1..]);
            && d.Ok?
            && DrawFreeCodes(s, i + 1, rand) == Ok((first.value.0 + [d.value.0], first.value.1 + d.value.1))
            && DrawFreeCodes(s, n, rand).value.0[..i + 1] == first.value.0 + [d.value.0]
  {
    if DrawFreeCodes(s, i + 1, rand).Err? {
      DrawFreeCodesPrefixFails(s, n, rand, i + 1);
    }
    if DrawFreeCodes(s, i, rand).Err? {
      DrawFreeCodesPrefixFails(s, i + 1, rand, i);
    }
    DrawFreeCodesSplit(s, n, rand, i + 1);
    DrawFreeCodesSplit(s, i + 1, rand, i);
    var first := DrawFreeCodes(s, i, rand);
    var d := DrawFreeCode(s, rand[first.value.1..]);
    assert [d.value.0] + [] == [d.value.0];
  }

  /** On a reachable store the code loop fails only for lack of draws: the
      first `m` codes were found with `k` draws, and every complete six-draw
      block after them spelled a taken code. */
  lemma {:induction false} DrawFreeCodesFailure(s: Store, n: nat, rand: seq<Draw>) returns (m: nat, k: nat)
    requires s.online && DrawFreeCodes(s, n, rand).Err?
    ensures DrawFreeCodes(s, n, rand).error == DrawsExhausted
    ensures m < n && k <= |rand| && DrawFreeCodes(s, m, rand).Ok? && DrawFreeCodes(s, m, rand).value.1 == k
    ensures DrawFreeCode(s, rand[k..]).Err? && BlocksTaken(s, [], rand[k..])
    decreases n
  {
    var d := DrawFreeCode(s, rand);
    if d.Ok? {
      var used := d.value.1;
      var m', k' := DrawFreeCodesFailure(s, n - 1, rand[used..]);
      m, k := m' + 1, k' + used;
      assert rand[used..][k'..] == rand[k..];
    } else {
      m, k := 0, 0;
      assert rand[0..] == rand;
      DrawFreeCodeFromDraws(s, rand);
    }
  }

  /** With one clock reading, the game expires exactly one week after it was
      created; with two ordered readings, no earlier. */
  lemma ExpiryIsOneWeek(opts: NewGameOptions, players: map<string, Node>, nowCreated: nat, nowExpired: nat)
    ensures var g := GameRecord(opts, players, nowCreated, nowExpired).fields;
            && (nowCreated == nowExpired ==> g["whenExpired"].n - g["whenCreated"].n == 604800)
            && (nowCreated <= nowExpired ==> g["whenExpired"].n - g["whenCreated"].n >= 604800)
  {
  }

  /** Read by path, the game record holds each player's record under
      `players/{code}`. */
  lemma GameRecordPlayers(opts: NewGameOptions, players: map<string, Node>, nowCreated: nat, nowExpired: nat, c: string)
    requires c in players
    ensures Get(GameRecord(opts, players, nowCreated, nowExpired), ["players"]) == Some(Obj(players))
    ensures Get(GameRecord(opts, players, nowCreated, nowExpired), ["players", c]) == Some(players[c])
  {
    var g := GameRecord(opts, players, nowCreated, nowExpired);
    assert ["players", c][1..] == [c] && ["players"][1..] == [];
    assert Get(Obj(players), [c]) == Get(players[c], []);
  }

  /** The game record keeps the options, without the names. */
  lemma GameRecordKeepsOptions(opts: NewGameOptions, players: map<string, Node>, nowCreated: nat, nowExpired: nat)
    ensures var g := GameRecord(opts, players, nowCreated, nowExpired).fields;
            && g.Keys == {"currency", "initialBalance", "crossStartBonus", "numberOfPlayers", "players", "whenCreated", "whenExpired"}
            && g["currency"] == Str(opts.currency) && g["initialBalance"] == Num(opts.initialBalance)
            && g["crossStartBonus"] == Num(opts.crossStartBonus) && g["numberOfPlayers"] == Num(opts.numberOfPlayers)
            && g["players"] == Obj(players)
  {
  }
}
