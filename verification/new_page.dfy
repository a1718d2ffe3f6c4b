/**
  The page that confirms the parameters of a new game.  It reads currency,
  balance, bonus and player count from the navigation state, refuses (and
  redirects to /404) any combination outside the accepted ranges, resets
  the player names whenever the player count changes, and starts the game
  by calling `createGame` and navigating to the bank page.
*/
module NewPage {
  import opened Wrappers
  import opened Store
  import opened Text
  import opened CreateGame
  import opened GameContext
  import opened NewGameForm

  /** A value read from the navigation state: missing, a string or an
      integer-valued number. */
  datatype JsValue = Undefined | JsStr(s: string) | JsNum(n: int)

  /** JavaScript truthiness: `undefined`, `""` and `0` are falsy. */
  function Truthy(v: JsValue): (t: bool)
    ensures !t <==> v == Undefined || v == JsStr("") || v == JsNum(0)
  {
    match v
    case Undefined => false
    case JsStr(s) => s != ""
    case JsNum(n) => n != 0
  }

  /** `Number(v)`: `undefined` is not a number, a number is itself, a
      text is read as `Number` reads it. */
  function NumberOf(v: JsValue): (x: Numeric)
    ensures v == Undefined ==> x.NaN?
    ensures v.JsNum? ==> x == Int(v.n)
    ensures v.JsStr? && AllDigits(v.s) ==> x == Int(DigitsValue(v.s))
  {
    match v
    case Undefined => NaN
    case JsStr(s) => ToNumber(s)
    case JsNum(n) => Int(n)
  }

  /** `location.state?.cr`, `?.ib`, `?.csb`, `?.np`. */
  datatype PageParams = PageParams(cr: JsValue, ib: JsValue, csb: JsValue, np: JsValue)

  /** The condition written at both line 35 and line 42.  Accepted
      parameters are all present and truthy, name a listed currency, and give no
      number outside its range. */
  function InvalidParams(p: PageParams): (invalid: bool)
    ensures !invalid ==> && p.cr.JsStr? && (p.cr.s == "PLN" || p.cr.s == "EUR" || p.cr.s == "USD")
                         && Truthy(p.cr) && Truthy(p.ib) && Truthy(p.csb) && Truthy(p.np)
                         && (NumberOf(p.ib).Int? ==> 1 <= NumberOf(p.ib).v <= 10000)
                         && (NumberOf(p.csb).Int? ==> 0 <= NumberOf(p.csb).v <= 1000)
                         && (NumberOf(p.np).Int? ==> 2 <= NumberOf(p.np).v <= 6)
    ensures p.ib == JsNum(0) || p.csb == JsNum(0) || p.np == JsNum(0) ==> invalid
  {
    || !Truthy(p.cr) || !Truthy(p.ib) || !Truthy(p.csb) || !Truthy(p.np)
    || !(p.cr.JsStr? && p.cr.s in Currencies)
    || Below(NumberOf(p.ib), 1) || Above(NumberOf(p.ib), 10000)
    || Below(NumberOf(p.csb), 0) || Above(NumberOf(p.csb), 1000)
    || Below(NumberOf(p.np), 2) || Above(NumberOf(p.np), 6)
  }

  /** What a visit does: whether the page renders and where the effect
      navigates (with `replace`). */
  datatype Visit = Visit(renders: bool, redirectTo: Option<string>)

  /** The redirect effect and the early `return null`, each testing the
      same condition: the page renders nothing exactly when it redirects to
      /404. */
  function VisitPage(p: PageParams): (v: Visit)
    ensures !v.renders <==> v.redirectTo == Some("/404")
    ensures v.redirectTo == None || v.redirectTo == Some("/404")
  {
    var redirectTo := if InvalidParams(p) then Some("/404") else None;
    var renders := !InvalidParams(p);
    Visit(renders, redirectTo)
  }

  /** Accepted numeric parameters lie in the stated ranges; because `0` is
      falsy, an accepted numeric bonus is at least 1. */
  lemma AcceptedNumbersInRange(p: PageParams)
    requires VisitPage(p).renders
    requires p.ib.JsNum? && p.csb.JsNum? && p.np.JsNum?
    ensures p.cr.JsStr? && (p.cr.s == "PLN" || p.cr.s == "EUR" || p.cr.s == "USD")
    ensures 1 <= p.ib.n <= 10000 && 1 <= p.csb.n <= 1000 && 2 <= p.np.n <= 6
  {
  }

  /** A bonus of the number 0 is refused, though the text "0" is accepted. */
  lemma ZeroBonusRedirects(p: PageParams)
    requires VisitPage(p.(csb := JsStr("0"))).renders
    ensures VisitPage(p.(csb := JsNum(0))).redirectTo == Some("/404")
  {
  }

  /** The page parameters as the form's fields: the three texts and the
      player count. */
  function ParamsOf(f: FormState): PageParams {
    PageParams(JsStr(f.currency), JsStr(f.initialBalance), JsStr(f.crossStartBonus), JsNum(f.numberOfPlayers))
  }

  /** The page accepts the form's values exactly when the form does. */
  lemma GuardAgreesWithForm(f: FormState)
    ensures VisitPage(ParamsOf(f)).renders <==> ValidateForm(f).ok
  {
  }

  /** The provider's initial parameters are the form's defaults, which the
      page accepts. */
  lemma InitialGameInfoIsAccepted()
    ensures InitialGameInfo.currency == DefaultForm.currency
    ensures InitialGameInfo.initialBalance == DefaultForm.initialBalance
    ensures InitialGameInfo.crossStartBonus == DefaultForm.crossStartBonus
    ensures InitialGameInfo.numberOfPlayers == DefaultForm.numberOfPlayers
    ensures VisitPage(ParamsOf(DefaultForm)).renders
  {
    DefaultFormIsValid();
    GuardAgreesWithForm(DefaultForm);
  }

  // ---------------------------------------------------------------------
  // Default player names

  /** The first length `new Array(len)` refuses: 2^32. */
  const ArrayLengthLimit: nat := 0x1_0000_0000

  /** `Array.from({ length: v })`: the length of a number, or 0 when it is
      negative or not a number; `None` when the length is 2^32 or more,
      where `Array.from` throws a RangeError. */
  function ArrayLength(x: Numeric): (len: Option<nat>)
    ensures len.None? <==> x.Int? && x.v >= ArrayLengthLimit
    ensures x.Int? && 0 <= x.v < ArrayLengthLimit ==> len == Some(x.v)
    ensures !(x.Int? && x.v >= 0) ==> len == Some(0)
    ensures len.Some? ==> len.value < ArrayLengthLimit
  {
    if x.Int? && x.v >= ArrayLengthLimit then None
    else if x.Int? && x.v > 0 then Some(x.v)
    else Some(0)
  }

  /** `Gracz 1`, `Gracz 2`, ... */
  function DefaultPlayerNames(count: nat): (names: seq<string>)
    ensures |names| == count
  {
    seq(count, i requires 0 <= i < count => "Gracz " + NatToString(i + 1))
  }

  /** Entry `i` names player `i + 1`, and no two default names coincide. */
  lemma {:induction false} DefaultPlayerNamesNumbered(count: nat)
    ensures forall i :: 0 <= i < count ==>
              |DefaultPlayerNames(count)[i]| > 6 && DefaultPlayerNames(count)[i][..6] == "Gracz "
              && ToNumber(DefaultPlayerNames(count)[i][6..]) == Int(i + 1)
    ensures forall i, j :: 0 <= i < j < count ==> DefaultPlayerNames(count)[i] != DefaultPlayerNames(count)[j]
  {
    var names := DefaultPlayerNames(count);
    forall i | 0 <= i < count
      ensures |names[i]| > 6 && names[i][..6] == "Gracz " && names[i][6..] == NatToString(i + 1)
      ensures ToNumber(names[i][6..]) == Int(i + 1)
    {
      ToNumberOfNatToString(i + 1);
    }
  }

  /** The effect that runs when the player count changes: new default
      names, which count as not yet defined.  When `Array.from` throws,
      the effect stops after emptying the names (`thrown`). */
  method OnPlayerCountChange(ctx: GameContextProvider, np: JsValue) returns (thrown: bool)
    modifies ctx
    ensures thrown <==> ArrayLength(NumberOf(np)).None?
    ensures !thrown ==> ctx.newPlayerNames == DefaultPlayerNames(ArrayLength(NumberOf(np)).value)
                        && !ctx.newPlayerNamesDefined
    ensures thrown ==> ctx.newPlayerNames == [] && ctx.newPlayerNamesDefined == old(ctx.newPlayerNamesDefined)
    ensures ctx.gameSessionActive == old(ctx.gameSessionActive)
    ensures ctx.gameInfo == old(ctx.gameInfo) && ctx.dbPlayersInfo == old(ctx.dbPlayersInfo)
  {
    ctx.newPlayerNames := [];
    var len := ArrayLength(NumberOf(np));
    if len.None? {
      return true;
    }
    ctx.newPlayerNames := DefaultPlayerNames(len.value);
    ctx.newPlayerNamesDefined := false;
    thrown := false;
  }

  /** A valid player count yields that many default names. */
  lemma ValidCountGivesThatManyNames(p: PageParams)
    requires VisitPage(p).renders && p.np.JsNum?
    ensures ArrayLength(NumberOf(p.np)).Some?
    ensures |DefaultPlayerNames(ArrayLength(NumberOf(p.np)).value)| == p.np.n
    ensures 2 <= |DefaultPlayerNames(ArrayLength(NumberOf(p.np)).value)| <= 6
  {
  }

  // ---------------------------------------------------------------------
  // Starting the game

  /** The state handed to the bank page. */
  datatype BankState = BankState(gameID: int, playerCode: Option<string>, token: string)

  datatype Navigation = Navigation(path: string, state: BankState)

  /** The start button: `createGame` with the four parameters and the
      current names, then navigation to `/bank` with what it returned.  A
      rejected `createGame` ends the handler without navigating. */
  method StartGame(ctx: GameContextProvider, s: Store, cr: string, ib: int, csb: int, np: int,
                   rand: seq<Draw>, nowCreated: nat, nowExpired: nat)
    returns (nav: Result<Navigation, Failure>, s': Store)
    requires ctx.newPlayerNamesDefined
    ensures var (r, after) := CreateGameSpec(s, NewGameOptions(cr, ib, csb, np, ctx.newPlayerNames), rand, nowCreated, nowExpired);
            && s' == after
            && (nav.Ok? <==> r.Ok?)
            && (r.Err? ==> nav == Err(r.error))
            && (r.Ok? ==> nav.value.path == "/bank"
                          && nav.value.state.gameID == r.value.newId
                          && nav.value.state.token == TokenPlaceholder
                          && nav.value.state.playerCode ==
                               (if |ctx.newPlayerNames| > 0 then Some(r.value.playerCodes[0]) else None))
  {
    var created: Result<Created, Failure>;
    created, s' := CreateGame.CreateGame(s, NewGameOptions(cr, ib, csb, np, ctx.newPlayerNames), rand, nowCreated, nowExpired);
    if created.Err? {
      return Err(created.error), s';
    }
    nav := Ok(Navigation("/bank", BankState(created.value.newId, created.value.newThisPlayerCode, created.value.newToken)));
  }
}
