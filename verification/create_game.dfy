/**
  Game-session creation: draw a free six-digit game id, draw one free
  six-character access code per player name, then write the transaction
  counter, one access record per code, and the game record.

  `Math.random()` is an input stream of draws in [0, 1); the source retries
  without bound, so a stream that runs out ends the call with
  `DrawsExhausted`.  `Date.now()` is read twice and both readings are
  parameters (milliseconds since the epoch).
*/
module CreateGame {
  import opened Wrappers
  import opened Store
  import opened Text

  /** One result of `Math.random()`. */
  type Draw = r: real | 0.0 <= r < 1.0

  const MinGameId: int := 100000
  const MaxGameId: int := 999999
  const CodeLength: nat := 6
  /** The token every access record receives (no generator is wired). */
  const TokenPlaceholder: string := "empty"
  /** One week, in seconds. */
  const ExpiryHorizon: int := 604800

  /** The options handed to `createGame`. */
  datatype NewGameOptions = NewGameOptions(
    currency: string,
    initialBalance: int,
    crossStartBonus: int,
    numberOfPlayers: int,
    playerNames: seq<string>)

  /** Why a call ends without a session: a rejected existence check (the
      message prefix names the check) or a random stream that ran out. */
  datatype Failure = ReadFailed(origin: string) | DrawsExhausted

  /** What `createGame` resolves to. */
  datatype Created = Created(newId: int, newThisPlayerCode: Option<string>, newToken: string)

  /** What one call allocated: the game id and the code drawn for each name. */
  datatype Session = Session(newId: int, playerCodes: seq<string>)

  // ---------------------------------------------------------------------
  // Random numbers and access codes

  /** `Math.floor(draw * (max - min + 1)) + min`: both bounds included. */
  function GetRandomInteger(min: int, max: int, draw: Draw): (n: int)
    requires min <= max
    ensures min <= n <= max
  {
    var span := (max - min + 1) as real;
    assert draw * span < span;
    (draw * span).Floor + min
  }

  const UpperLetters: string := "ABCDEFGHIJKLMNOPQRSTUVWXYZ"
  const LowerLetters: string := "abcdefghijklmnopqrstuvwxyz"
  const DigitLetters: string := "0123456789"
  /** The 62-character alphabet codes are drawn from. */
  const Characters: string := UpperLetters + LowerLetters + DigitLetters

  /** The i-th character of the alphabet, counted out: 26 upper-case
      letters, 26 lower-case letters, then the 10 digits. */
  function AlphabetAt(i: int): (c: char)
    requires 0 <= i < |Characters|
    ensures IsCodeChar(UpperChar(c))
  {
    if i < 26 then ('A' as int + i) as char
    else if i < 52 then ('a' as int + (i - 26)) as char
    else ('0' as int + (i - 52)) as char
  }

  /** Counting the alphabet out agrees with indexing the string. */
  lemma AlphabetAtIsCharacters(i: int)
    requires 0 <= i < |Characters|
    ensures AlphabetAt(i) == Characters[i]
  {
    if i < 26 {
      assert Characters[i] == UpperLetters[i];
    } else if i < 52 {
      assert Characters[i] == LowerLetters[i - 26];
    } else {
      assert Characters[i] == DigitLetters[i - 52];
    }
  }

  /** `characters.charAt(Math.floor(draw * charactersLength))`. */
  function CharacterAt(draw: Draw): (c: char)
    ensures IsCodeChar(UpperChar(c))
  {
    AlphabetAt(GetRandomInteger(0, |Characters| - 1, draw))
  }

  /** The character a draw picks is the alphabet string at the index the
      draw gives. */
  lemma CharacterAtIsAlphabet(draw: Draw)
    ensures CharacterAt(draw) == Characters[GetRandomInteger(0, |Characters| - 1, draw)]
  {
    AlphabetAtIsCharacters(GetRandomInteger(0, |Characters| - 1, draw));
  }

  predicate IsCodeChar(c: char) {
    'A' <= c <= 'Z' || '0' <= c <= '9'
  }

  /** Six characters, each an upper-case letter or a digit. */
  predicate WellFormedCode(code: string) {
    |code| == CodeLength && forall i :: 0 <= i < |code| ==> IsCodeChar(code[i])
  }

  /** The characters chosen by `draws`, before upper-casing. */
  function RawCode(draws: seq<Draw>): string {
    seq(|draws|, i requires 0 <= i < |draws| => CharacterAt(draws[i]))
  }

  /** A string holding the character of each of the first `k` draws is the
      raw code of those draws. */
  lemma RawCodeOfPrefix(draws: seq<Draw>, k: nat, chars: string)
    requires k <= |draws| && |chars| == k
    requires forall i :: 0 <= i < k ==> chars[i] == CharacterAt(draws[i])
    ensures chars == RawCode(draws[..k])
  {
  }

  /** The code `createRandomPlayerCode` builds from `draws`. */
  function CodeOf(draws: seq<Draw>): (code: string)
    ensures |code| == |draws|
    ensures forall i :: 0 <= i < |code| ==> IsCodeChar(code[i])
  {
    ToUpperCase(RawCode(draws))
  }

  /** `createRandomPlayerCode(length)`: one character per draw, then upper-cased. */
  method CreateRandomPlayerCode(draws: seq<Draw>, length: nat) returns (code: string)
    requires |draws| >= length
    ensures code == CodeOf(draws[..length])
    ensures |code| == length && forall i :: 0 <= i < length ==> IsCodeChar(code[i])
  {
    var result := "";
    var counter := 0;
    while counter < length
      invariant 0 <= counter <= length
      invariant |result| == counter
      invariant forall i :: 0 <= i < counter ==> result[i] == CharacterAt(draws[i])
    {
      result := result + [CharacterAt(draws[counter])];
      counter := counter + 1;
    }
    RawCodeOfPrefix(draws, length, result);
    code := ToUpperCase(result);
  }

  // ---------------------------------------------------------------------
  // Store layout

  /** `/ids/{id}` */
  function IdPath(id: int): Path {
    ["ids", IntToString(id)]
  }

  /** `/ids/{id}/transactionHistory` */
  function TransactionHistoryPath(id: int): Path {
    ["ids", IntToString(id), "transactionHistory"]
  }

  /** `/access/{code}` */
  function AccessPath(code: string): Path {
    ["access", code]
  }

  /** `/games/game-{id}` */
  function GamePath(id: int): Path {
    ["games", "game-" + IntToString(id)]
  }

  /** `checkIdExists`: a rejected read is rethrown. */
  function CheckIdExists(s: Store, id: int): (r: Result<bool, Failure>)
    ensures r.Err? <==> !s.online
    ensures r.Err? ==> r.error == ReadFailed("checkIdExists")
    ensures r.Ok? ==> (r.value <==> Get(s.root, IdPath(id)).Some?)
  {
    match Exists(s, IdPath(id))
    case Ok(b) => Ok(b)
    case Err(_) => Err(ReadFailed("checkIdExists"))
  }

  /** `checkPlayerCodeExists`: a rejected read is rethrown. */
  function CheckPlayerCodeExists(s: Store, code: string): (r: Result<bool, Failure>)
    ensures r.Err? <==> !s.online
    ensures r.Err? ==> r.error == ReadFailed("checkPlayerCodeExists")
    ensures r.Ok? ==> (r.value <==> Get(s.root, AccessPath(code)).Some?)
  {
    match Exists(s, AccessPath(code))
    case Ok(b) => Ok(b)
    case Err(_) => Err(ReadFailed("checkPlayerCodeExists"))
  }

  /** The record stored under `players/{code}` for the player at `index`. */
  function PlayerRecord(name: string, index: nat, balance: int): Node {
    Obj(map[
      "name" := Str(name),
      "isBank" := Str(if index == 0 then "owner" else "false"),
      "balance" := Num(balance),
      "status" := Str("offline")])
  }

  /** The welcome notification every access record starts with. */
  function WelcomeNotification(opts: NewGameOptions): Node {
    Obj(map[
      "id" := Num(1),
      "type" := Str("info"),
      "textPrimary" := Str("Witamy w grze!"),
      "textSecondary" := Str("Rozpoczynasz grę z kwotą " + IntToString(opts.initialBalance) + " " + opts.currency + "."),
      "timestamp" := ServerTime,
      "read" := Bool(false)])
  }

  /** The record stored under `/access/{code}`. */
  function AccessRecord(id: int, token: string, opts: NewGameOptions): Node {
    Obj(map[
      "gameID" := Num(id),
      "token" := Str(token),
      "notifications" := Obj(map["1" := WelcomeNotification(opts)])])
  }

  /** The record stored under `/games/game-{id}`: the options without the
      names, the players, and the two timestamps in seconds.  The expiry is
      `floor(t / 1000 + 604800)`, which is `t / 1000 + 604800` for integer
      milliseconds. */
  function GameRecord(opts: NewGameOptions, players: map<string, Node>, nowCreated: nat, nowExpired: nat): Node {
    Obj(map[
      "currency" := Str(opts.currency),
      "initialBalance" := Num(opts.initialBalance),
      "crossStartBonus" := Num(opts.crossStartBonus),
      "numberOfPlayers" := Num(opts.numberOfPlayers),
      "players" := Obj(players),
      "whenCreated" := Num(nowCreated / 1000),
      "whenExpired" := Num(nowExpired / 1000 + ExpiryHorizon)])
  }

  /** `playersDbObj` after the first `n` iterations of the `forEach`: a later
      code overwrites an earlier equal one. */
  function PlayersUpTo(codes: seq<string>, names: seq<string>, balance: int, n: nat): (m: map<string, Node>)
    requires n <= |codes| && n <= |names|
    ensures n > 0 ==> codes[n - 1] in m && m[codes[n - 1]] == PlayerRecord(names[n - 1], n - 1, balance)
  {
    if n == 0 then map[]
    else PlayersUpTo(codes, names, balance, n - 1)[codes[n - 1] := PlayerRecord(names[n - 1], n - 1, balance)]
  }

  /** The store after the first `n` access-record writes of the `forEach`. */
  function WriteAccessUpTo(s: Store, codes: seq<string>, id: int, opts: NewGameOptions, n: nat): (r: Store)
    requires n <= |codes|
    ensures r.online == s.online
    ensures !s.online ==> r == s
  {
    if n == 0 then s
    else Write(WriteAccessUpTo(s, codes, id, opts, n - 1), AccessPath(codes[n - 1]), AccessRecord(id, TokenPlaceholder, opts))
  }

  // ---------------------------------------------------------------------
  // The retry loops, as recursive specifications

  /** A draw result whose counter of consumed draws grows by `k`. */
  function Shift<T>(r: Result<(T, nat), Failure>, k: nat): Result<(T, nat), Failure> {
    match r
    case Ok((x, used)) => Ok((x, used + k))
    case Err(e) => Err(e)
  }

  lemma ShiftShift<T>(r: Result<(T, nat), Failure>, a: nat, b: nat)
    ensures Shift(Shift(r, a), b) == Shift(r, a + b)
  {
  }

  /** The id loop: draw candidates until one is absent from `/ids`.  On
      success the id is in range, absent, drawn from the last draw consumed,
      and every earlier candidate was present. */
  function DrawFreeId(s: Store, rand: seq<Draw>): (r: Result<(int, nat), Failure>)
    ensures r.Ok? ==> 1 <= r.value.1 <= |rand|
    ensures r.Ok? ==> r.value.0 == GetRandomInteger(MinGameId, MaxGameId, rand[r.value.1 - 1])
    ensures r.Ok? ==> MinGameId <= r.value.0 <= MaxGameId
    ensures r.Ok? ==> CheckIdExists(s, r.value.0) == Ok(false)
    ensures r.Ok? ==> forall j :: 0 <= j < r.value.1 - 1 ==>
                        CheckIdExists(s, GetRandomInteger(MinGameId, MaxGameId, rand[j])) == Ok(true)
    ensures r.Err? ==> r.error == (if s.online || |rand| == 0 then DrawsExhausted else ReadFailed("checkIdExists"))
    ensures r.Err? && s.online ==> forall j :: 0 <= j < |rand| ==>
                                     CheckIdExists(s, GetRandomInteger(MinGameId, MaxGameId, rand[j])) == Ok(true)
    decreases |rand|
  {
    if |rand| == 0 then Err(DrawsExhausted)
    else
      var id := GetRandomInteger(MinGameId, MaxGameId, rand[0]);
      match CheckIdExists(s, id)
      case Err(e) => Err(e)
      case Ok(taken) =>
        if !taken then Ok((id, 1))
        else
          var rest := DrawFreeId(s, rand[1..]);
          assert forall j :: 1 <= j < |rand| ==> rand[j] == rand[1..][j - 1];
          Shift(rest, 1)
  }

  /** Every complete six-draw block of `rand`, read from the front, spells a code
      that exists in `/access` or is already in `taken`. */
  predicate BlocksTaken(s: Store, taken: seq<string>, rand: seq<Draw>)
    decreases |rand|
  {
    |rand| < CodeLength
    || (&& (CheckPlayerCodeExists(s, CodeOf(rand[..CodeLength])) == Ok(true) || CodeOf(rand[..CodeLength]) in taken)
        && BlocksTaken(s, taken, rand[CodeLength..]))
  }

  /** The code loop for one player: draw six characters at a time until the
      code is absent from `/access`. */
  function DrawFreeCode(s: Store, rand: seq<Draw>): (r: Result<(string, nat), Failure>)
    ensures r.Ok? ==> CodeLength <= r.value.1 <= |rand|
    ensures r.Ok? ==> WellFormedCode(r.value.0)
    ensures r.Ok? ==> CheckPlayerCodeExists(s, r.value.0) == Ok(false)
    ensures r.Err? ==> r.error == (if s.online || |rand| < CodeLength then DrawsExhausted else ReadFailed("checkPlayerCodeExists"))
    decreases |rand|
  {
    if |rand| < CodeLength then Err(DrawsExhausted)
    else
      var code := CodeOf(rand[..CodeLength]);
      match CheckPlayerCodeExists(s, code)
      case Err(e) => Err(e)
      case Ok(taken) =>
        if !taken then Ok((code, CodeLength))
        else
          Shift(DrawFreeCode(s, rand[CodeLength..]), CodeLength)
  }

  /** What a search for a free code explains about its result `r`: a code
      found is spelled by the last six-draw block used, and every earlier
      block spelled a code that exists in `/access` or is in `taken`; on a
      reachable store a failure means every complete block did. */
  predicate SearchExplained(s: Store, taken: seq<string>, rand: seq<Draw>, r: Result<(string, nat), Failure>)
    requires r.Ok? ==> CodeLength <= r.value.1 <= |rand|
  {
    && (r.Ok? ==> && r.value.1 % CodeLength == 0
                  && r.value.0 == CodeOf(rand[r.value.1 - CodeLength..r.value.1])
                  && BlocksTaken(s, taken, rand[..r.value.1 - CodeLength]))
    && (r.Err? && s.online ==> BlocksTaken(s, taken, rand))
  }

  /** Whole blocks of draws stay whole after one more block. */
  lemma WholeBlocksMovedOn(u: nat)
    requires u % CodeLength == 0
    ensures (u + CodeLength) % CodeLength == 0
  {
  }

  /** A block spelling a taken code in front of taken blocks gives taken
      blocks. */
  lemma BlocksTakenMovedOn(s: Store, taken: seq<string>, rand: seq<Draw>, u: nat)
    requires CodeLength <= u <= |rand|
    requires CheckPlayerCodeExists(s, CodeOf(rand[..CodeLength])) == Ok(true) || CodeOf(rand[..CodeLength]) in taken
    requires BlocksTaken(s, taken, rand[CodeLength..][..u - CodeLength])
    ensures BlocksTaken(s, taken, rand[..u])
  {
    assert rand[..u][..CodeLength] == rand[..CodeLength];
    assert rand[..u][CodeLength..] == rand[CodeLength..][..u - CodeLength];
  }

  /** The last block of a search on the draws after the first block is the
      same block of all the draws, six places further on. */
  lemma LastBlockMovedOn(rand: seq<Draw>, u: nat)
    requires CodeLength <= u <= |rand| - CodeLength
    requires u % CodeLength == 0
    ensures (u + CodeLength) % CodeLength == 0
    ensures CodeOf(rand[CodeLength..][u - CodeLength..u]) == CodeOf(rand[u..u + CodeLength])
  {
    WholeBlocksMovedOn(u);
    assert rand[CodeLength..][u - CodeLength..u] == rand[u..u + CodeLength];
  }

  /** A block spelling a taken code, followed by a search on the draws after
      it that found a code, is a search on all the draws that found it. */
  lemma FoundMovedOn(s: Store, taken: seq<string>, rand: seq<Draw>, rest: Result<(string, nat), Failure>)
    requires |rand| >= CodeLength
    requires CheckPlayerCodeExists(s, CodeOf(rand[..CodeLength])) == Ok(true) || CodeOf(rand[..CodeLength]) in taken
    requires rest.Ok? && CodeLength <= rest.value.1 <= |rand| - CodeLength
    requires SearchExplained(s, taken, rand[CodeLength..], rest)
    ensures SearchExplained(s, taken, rand, Shift(rest, CodeLength))
  {
    var u := rest.value.1;
    assert Shift(rest, CodeLength) == Ok((rest.value.0, u + CodeLength));
    LastBlockMovedOn(rand, u);
    BlocksTakenMovedOn(s, taken, rand, u);
  }

  /** A block spelling a taken code, followed by a failed search on the draws
      after it, is a failed search on all the draws. */
  lemma FailureMovedOn(s: Store, taken: seq<string>, rand: seq<Draw>, rest: Result<(string, nat), Failure>)
    requires |rand| >= CodeLength
    requires CheckPlayerCodeExists(s, CodeOf(rand[..CodeLength])) == Ok(true) || CodeOf(rand[..CodeLength]) in taken
    requires rest.Err?
    requires SearchExplained(s, taken, rand[CodeLength..], rest)
    ensures SearchExplained(s, taken, rand, Shift(rest, CodeLength))
  {
    if s.online {
      assert BlocksTaken(s, taken, rand);
    }
  }

  /** A block spelling a taken code, followed by a search explained on the
      draws after it, is a search explained on all the draws. */
  lemma SearchExplainedMovedOn(s: Store, taken: seq<string>, rand: seq<Draw>, rest: Result<(string, nat), Failure>)
    requires |rand| >= CodeLength
    requires CheckPlayerCodeExists(s, CodeOf(rand[..CodeLength])) == Ok(true) || CodeOf(rand[..CodeLength]) in taken
    requires rest.Ok? ==> CodeLength <= rest.value.1 <= |rand| - CodeLength
    requires SearchExplained(s, taken, rand[CodeLength..], rest)
    ensures SearchExplained(s, taken, rand, Shift(rest, CodeLength))
  {
    if rest.Ok? {
      FoundMovedOn(s, taken, rand, rest);
    } else {
      FailureMovedOn(s, taken, rand, rest);
    }
  }

  /** The free-code search is explained by its draws. */
  lemma {:induction false} DrawFreeCodeFromDraws(s: Store, rand: seq<Draw>)
    ensures SearchExplained(s, [], rand, DrawFreeCode(s, rand))
    decreases |rand|
  {
    if |rand| >= CodeLength {
      var check := CheckPlayerCodeExists(s, CodeOf(rand[..CodeLength]));
      if check == Ok(false) {
        assert rand[..0] == [];
      } else if check == Ok(true) {
        DrawFreeCodeFromDraws(s, rand[CodeLength..]);
        SearchExplainedMovedOn(s, [], rand, DrawFreeCode(s, rand[CodeLength..]));
      }
    }
  }


  /** A code-draw result with `codes` (consuming `used` draws) put in front. */
  function Extend(codes: seq<string>, used: nat, r: Result<(seq<string>, nat), Failure>): Result<(seq<string>, nat), Failure> {
    match r
    case Ok((cs, m)) => Ok((codes + cs, used + m))
    case Err(e) => Err(e)
  }

  lemma ExtendNothing(r: Result<(seq<string>, nat), Failure>)
    ensures Extend([], 0, r) == r
  {
    if r.Ok? { assert [] + r.value.0 == r.value.0; }
  }

  lemma ExtendExtend(a: seq<string>, u: nat, b: seq<string>, v: nat, r: Result<(seq<string>, nat), Failure>)
    ensures Extend(a, u, Extend(b, v, r)) == Extend(a + b, u + v, r)
  {
    if r.Ok? { assert a + (b + r.value.0) == (a + b) + r.value.0; }
  }

  /** A loop result that starts with one code, split after `i` codes, once
      the part after that code is split after `i - 1`. */
  lemma ExtendStep(whole: Result<(seq<string>, nat), Failure>, prefix: Result<(seq<string>, nat), Failure>,
                   code: string, used: nat, restWhole: Result<(seq<string>, nat), Failure>,
                   restPrefix: Result<(seq<string>, nat), Failure>, tail: Result<(seq<string>, nat), Failure>)
    requires whole == Extend([code], used, restWhole)
    requires prefix == Extend([code], used, restPrefix) && restPrefix.Ok?
    requires restWhole == Extend(restPrefix.value.0, restPrefix.value.1, tail)
    ensures prefix == Ok(([code] + restPrefix.value.0, used + restPrefix.value.1))
    ensures whole == Extend(prefix.value.0, prefix.value.1, tail)
  {
    ExtendExtend([code], used, restPrefix.value.0, restPrefix.value.1, tail);
  }

  /** The `for ... of playerNames` loop: one free code per name, in order. */
  function DrawFreeCodes(s: Store, n: nat, rand: seq<Draw>): (r: Result<(seq<string>, nat), Failure>)
    ensures r.Ok? ==> |r.value.0| == n && r.value.1 <= |rand|
    ensures r.Ok? ==> forall i :: 0 <= i < n ==>
                        WellFormedCode(r.value.0[i]) && CheckPlayerCodeExists(s, r.value.0[i]) == Ok(false)
    ensures r.Err? ==> n > 0
    decreases n
  {
    if n == 0 then Ok(([], 0))
    else match DrawFreeCode(s, rand)
      case Err(e) => Err(e)
      case Ok((code, used)) =>
        var rest := DrawFreeCodes(s, n - 1, rand[used..]);
        assert rest.Ok? ==> forall i :: 1 <= i < n ==> ([code] + rest.value.0)[i] == rest.value.0[i - 1];
        Extend([code], used, rest)
  }

  /** Everything one `createGame` call does: the allocated session (or the
      failure) and the store afterwards. */
  function CreateGameSpec(s: Store, opts: NewGameOptions, rand: seq<Draw>, nowCreated: nat, nowExpired: nat): (r: (Result<Session, Failure>, Store))
    ensures r.1.online == s.online
    ensures r.0.Ok? ==> && s.online
                        && MinGameId <= r.0.value.newId <= MaxGameId
                        && |r.0.value.playerCodes| == |opts.playerNames|
    ensures r.0.Err? && !s.online ==> r.1 == s
  {
    match DrawFreeId(s, rand)
    case Err(e) => (Err(e), s)
    case Ok((id, used)) =>
      var s1 := Write(s, TransactionHistoryPath(id), Num(0));
      match DrawFreeCodes(s1, |opts.playerNames|, rand[used..])
      case Err(e) => (Err(e), s1)
      case Ok((codes, _)) =>
        var n := |codes|;
        var s2 := WriteAccessUpTo(s1, codes, id, opts, n);
        var players := PlayersUpTo(codes, opts.playerNames, opts.initialBalance, n);
        (Ok(Session(id, codes)), Write(s2, GamePath(id), GameRecord(opts, players, nowCreated, nowExpired)))
  }

  /** The value `createGame` resolves to for a session. */
  function Reply(r: Result<Session, Failure>): (c: Result<Created, Failure>)
    ensures c.Ok? <==> r.Ok?
    ensures r.Err? ==> c == Err(r.error)
    ensures r.Ok? ==> && c.value.newId == r.value.newId && c.value.newToken == TokenPlaceholder
                      && (c.value.newThisPlayerCode.Some? <==> |r.value.playerCodes| > 0)
                      && (c.value.newThisPlayerCode.Some? ==> c.value.newThisPlayerCode.value == r.value.playerCodes[0])
  {
    match r
    case Ok(session) =>
      var first := if |session.playerCodes| > 0 then Some(session.playerCodes[0]) else None;
      Ok(Created(session.newId, first, TokenPlaceholder))
    case Err(e) => Err(e)
  }

  // ---------------------------------------------------------------------
  // The imperative code

  /** Lines 52-62: draw an id, check it, redraw while it exists. */
  method DrawGameId(s: Store, rand: seq<Draw>) returns (r: Result<(int, nat), Failure>)
    ensures r == DrawFreeId(s, rand)
  {
    if |rand| == 0 {
      return Err(DrawsExhausted);
    }
    var newId := GetRandomInteger(MinGameId, MaxGameId, rand[0]);
    var k := 1;
    var check := CheckIdExists(s, newId);
    while check == Ok(true)
      invariant 1 <= k <= |rand|
      invariant newId == GetRandomInteger(MinGameId, MaxGameId, rand[k - 1])
      invariant check == CheckIdExists(s, newId)
      invariant DrawFreeId(s, rand) == Shift(DrawFreeId(s, rand[k - 1..]), k - 1)
      decreases |rand| - k
    {
      assert DrawFreeId(s, rand[k - 1..]) == Shift(DrawFreeId(s, rand[k..]), 1) by {
        assert rand[k - 1..][1..] == rand[k..];
      }
      ShiftShift(DrawFreeId(s, rand[k..]), 1, k - 1);
      if k == |rand| {
        return Err(DrawsExhausted);
      }
      newId := GetRandomInteger(MinGameId, MaxGameId, rand[k]);
      k := k + 1;
      check := CheckIdExists(s, newId);
    }
    if check.Err? {
      return Err(check.error);
    }
    r := Ok((newId, k));
  }

  /** Lines 73-79: draw a code, check it, redraw while it exists. */
  method DrawPlayerCode(s: Store, rand: seq<Draw>) returns (r: Result<(string, nat), Failure>)
    ensures r == DrawFreeCode(s, rand)
  {
    if |rand| < CodeLength {
      return Err(DrawsExhausted);
    }
    var newPlayerCode := CreateRandomPlayerCode(rand, CodeLength);
    var k := CodeLength;
    assert rand[0..] == rand && rand[..CodeLength] == rand[k - CodeLength..k];
    var check := CheckPlayerCodeExists(s, newPlayerCode);
    while check == Ok(true)
      invariant CodeLength <= k <= |rand|
      invariant newPlayerCode == CodeOf(rand[k - CodeLength..k])
      invariant check == CheckPlayerCodeExists(s, newPlayerCode)
      invariant DrawFreeCode(s, rand) == Shift(DrawFreeCode(s, rand[k - CodeLength..]), k - CodeLength)
      decreases |rand| - k
    {
      DrawFreeCodeTakenBlock(s, rand, k);
      ShiftShift(DrawFreeCode(s, rand[k..]), CodeLength, k - CodeLength);
      if |rand| - k < CodeLength {
        return Err(DrawsExhausted);
      }
      newPlayerCode := CreateRandomPlayerCode(rand[k..], CodeLength);
      assert rand[k..][..CodeLength] == rand[k..k + CodeLength];
      k := k + CodeLength;
      check := CheckPlayerCodeExists(s, newPlayerCode);
    }
    if check.Err? {
      return Err(check.error);
    }
    assert rand[k - CodeLength..][..CodeLength] == rand[k - CodeLength..k];
    r := Ok((newPlayerCode, k));
  }

  /** A search starting at a block that spells a taken code goes on six
      draws later. */
  lemma DrawFreeCodeTakenBlock(s: Store, rand: seq<Draw>, k: nat)
    requires CodeLength <= k <= |rand|
    requires CheckPlayerCodeExists(s, CodeOf(rand[k - CodeLength..k])) == Ok(true)
    ensures DrawFreeCode(s, rand[k - CodeLength..]) == Shift(DrawFreeCode(s, rand[k..]), CodeLength)
  {
    assert rand[k - CodeLength..][..CodeLength] == rand[k - CodeLength..k];
    assert rand[k - CodeLength..][CodeLength..] == rand[k..];
  }

  /** Lines 70-81: one code per player name, in order. */
  method DrawPlayerCodes(s: Store, playerNames: seq<string>, rand: seq<Draw>) returns (r: Result<(seq<string>, nat), Failure>)
    ensures r == DrawFreeCodes(s, |playerNames|, rand)
  {
    var newPlayerCodes: seq<string> := [];
    var k := 0;
    var i := 0;
    ExtendNothing(DrawFreeCodes(s, |playerNames|, rand));
    assert rand[0..] == rand;
    while i < |playerNames|
      invariant 0 <= i <= |playerNames| && k <= |rand|
      invariant |newPlayerCodes| == i
      invariant DrawFreeCodes(s, |playerNames|, rand)
                == Extend(newPlayerCodes, k, DrawFreeCodes(s, |playerNames| - i, rand[k..]))
    {
      var codeDraw := DrawPlayerCode(s, rand[k..]);
      if codeDraw.Err? {
        return Err(codeDraw.error);
      }
      var newPlayerCode := codeDraw.value.0;
      var used := codeDraw.value.1;
      assert rand[k..][used..] == rand[k + used..];
      ExtendExtend(newPlayerCodes, k, [newPlayerCode], used, DrawFreeCodes(s, |playerNames| - i - 1, rand[k + used..]));
      newPlayerCodes := newPlayerCodes + [newPlayerCode];
      k := k + used;
      i := i + 1;
    }
    assert newPlayerCodes + [] == newPlayerCodes;
    r := Ok((newPlayerCodes, k));
  }

  /** Lines 87-103: fill `playersDbObj` and write one access record per
      code, in code order, each with the placeholder token of line 85. */
  method WritePlayers(s: Store, newPlayerCodes: seq<string>, opts: NewGameOptions, newId: int)
    returns (playersDbObj: map<string, Node>, s': Store)
    requires |newPlayerCodes| == |opts.playerNames|
    ensures playersDbObj == PlayersUpTo(newPlayerCodes, opts.playerNames, opts.initialBalance, |newPlayerCodes|)
    ensures s' == WriteAccessUpTo(s, newPlayerCodes, newId, opts, |newPlayerCodes|)
  {
    playersDbObj := map[];
    s' := s;
    var index := 0;
    while index < |newPlayerCodes|
      invariant 0 <= index <= |newPlayerCodes|
      invariant playersDbObj == PlayersUpTo(newPlayerCodes, opts.playerNames, opts.initialBalance, index)
      invariant s' == WriteAccessUpTo(s, newPlayerCodes, newId, opts, index)
    {
      var playerCode := newPlayerCodes[index];
      playersDbObj := playersDbObj[playerCode := PlayerRecord(opts.playerNames[index], index, opts.initialBalance)];
      s' := Write(s', AccessPath(playerCode), AccessRecord(newId, TokenPlaceholder, opts));
      index := index + 1;
    }
  }

  /** `createGame`: the result it resolves to and the store afterwards.  The
      writes are not awaited in the source; they are applied in program
      order. */
  method CreateGame(s: Store, opts: NewGameOptions, rand: seq<Draw>, nowCreated: nat, nowExpired: nat)
    returns (r: Result<Created, Failure>, s': Store)
    ensures r == Reply(CreateGameSpec(s, opts, rand, nowCreated, nowExpired).0)
    ensures s' == CreateGameSpec(s, opts, rand, nowCreated, nowExpired).1
  {
    var idDraw := DrawGameId(s, rand);
    if idDraw.Err? {
      return Err(idDraw.error), s;
    }
    var newId := idDraw.value.0;
    var used := idDraw.value.1;
    s' := Write(s, TransactionHistoryPath(newId), Num(0));

    var codesDraw := DrawPlayerCodes(s', opts.playerNames, rand[used..]);
    if codesDraw.Err? {
      return Err(codesDraw.error), s';
    }
    var newPlayerCodes := codesDraw.value.0;
    var newThisPlayerCode := if |newPlayerCodes| > 0 then Some(newPlayerCodes[0]) else None;
    var newToken := TokenPlaceholder;

    var playersDbObj;
    playersDbObj, s' := WritePlayers(s', newPlayerCodes, opts, newId);

    s' := Write(s', GamePath(newId), GameRecord(opts, playersDbObj, nowCreated, nowExpired));
    r := Ok(Created(newId, newThisPlayerCode, newToken));
  }
}
