/** Consequences: who wins, when strategy, size hint and laziness matter, and where the
    documented behaviour has its limits. */
module NegotiationLaws {
  import Seqs
  import opened Varint
  import opened FrameGrammar
  import opened Messages
  import opened Negotiation
  import opened NegotiationRuns
  import opened NegotiationTheorems
  import opened Wrappers

  // ------------------------------------------------------------------- outcome

  /** `k` is the position of the dialer's first name that the listener supports. */
  ghost predicate FirstSupported(names: seq<Name>, sup: seq<Name>, k: nat) {
    k < |names| && names[k] in sup && forall j | 0 <= j < k :: names[j] !in sup
  }

  lemma {:induction false} FirstCommonPosition(names: seq<Name>, sup: seq<Name>) returns (k: nat)
    ensures match FirstCommon(names, sup)
            case Some(n) => FirstSupported(names, sup, k) && names[k] == n
            case None => forall n | n in names :: n !in sup
  {
    k := 0;
    if names != [] && names[0] !in sup {
      k := FirstCommonPosition(names[1..], sup);
      k := k + 1;
    }
  }

  lemma {:induction false} FirstCommonOfPrefix(names: seq<Name>, sup: seq<Name>, k: nat)
    requires k <= |names|
    ensures FirstCommon(names[..k], sup).Some? ==> FirstCommon(names, sup) == FirstCommon(names[..k], sup)
    ensures FirstCommon(names[..k], sup).None? && k < |names| && names[k] in sup ==>
              FirstCommon(names, sup) == Some(names[k])
  {
    if k > 0 && names[0] !in sup {
      assert names[..k][1..] == names[1..][..k - 1];
      FirstCommonOfPrefix(names[1..], sup, k - 1);
    }
  }

  /** The position of the first name that does not reach the peer as it is. */
  function FirstUntellable(names: seq<Name>): (k: nat)
    ensures k <= |names| && (forall i | 0 <= i < k :: Tellable(names[i]))
    ensures k < |names| ==> !Tellable(names[k])
  {
    if names == [] || !Tellable(names[0]) then 0 else 1 + FirstUntellable(names[1..])
  }

  /** A dialer comes to its first untellable name, at `k`. */
  function SpoiltDialer(version: Version, names: seq<Name>, k: nat): Outcome
    requires k < |names|
  {
    if !WellFormed(names[k]) then Violation(InvalidProtocol)
    else if !Sendable(Protocol(names[k])) then TOO_LONG
    else if version == V1Lazy && k + 1 == |names| then CUT_OFF
    else Failed
  }

  function SpoiltListener(n: Name, lastSentNa: bool): Outcome {
    if Garbled(n) then Refusal(lastSentNa, Wire(Protocol(n))) else Failed
  }

  /** How serial negotiations end for dialer and listener: with the first supported name, unless
      there is an untellable one before. */
  predicate EndsInTurn(version: Version, names: seq<Name>, sup: seq<Name>, na: bool, d: Outcome, l: Outcome) {
    var k := FirstUntellable(names);
    match FirstCommon(names[..k], sup)
    case Some(n) => d == l == Agreed(n)
    case None =>
      if k == |names| then d == l == Failed
      else d == SpoiltDialer(version, names, k) && l == SpoiltListener(names[k], na || k > 0)
  }

  lemma EndsInTurnStep(version: Version, names: seq<Name>, sup: seq<Name>, na: bool, d: Outcome, l: Outcome)
    requires names != [] && Tellable(names[0]) && names[0] !in sup
    requires EndsInTurn(version, names[1..], sup, true, d, l)
    ensures EndsInTurn(version, names, sup, na, d, l)
  {
    var k := FirstUntellable(names);
    assert names[..k][1..] == names[1..][..k - 1];
  }

  lemma {:induction false} SerialEnds(version: Version, names: seq<Name>, sup: seq<Name>, na: bool)
    ensures EndsInTurn(version, names, sup, na, SerialOutcome(version, names, sup), ServedOutcome(names, sup, na))
  {
    if names != [] && Tellable(names[0]) {
      if names[0] in sup {
        assert names[..FirstUntellable(names)][0] == names[0];
      } else {
        SerialEnds(version, names[1..], sup, true);
        EndsInTurnStep(version, names, sup, na,
                       SerialOutcome(version, names[1..], sup), ServedOutcome(names[1..], sup, true));
      }
    }
  }

  /** The errors that a garbled name can be read as; one of them is excused after a rejection. */
  lemma GarbledErrors(n: Name, na: bool)
    requires Garbled(n)
    ensures Refusal(na, Wire(Protocol(n))) == Failed <==> na && Wire(Protocol(n)) == Bad(InvalidMessage)
    ensures Refusal(na, Wire(Protocol(n))) == TOO_LONG <==> Wire(Protocol(n)) == Bad(IoError(InvalidData))
    ensures !Refusal(na, Wire(Protocol(n))).Agreed?
  {
    var e := Messages.Encode(Protocol(n));
    assert e[0] == SLASH && e[..|e| - 1] == n;
    DecodeListErrors(e, 0);
  }

  /** Both sides have ended with the dialer's first name that the listener supports, or both
      have failed because there is none. */
  ghost predicate EndsAsPromised(names: seq<Name>, sup: seq<Name>, s: System) {
    || (exists k: nat :: && FirstSupported(names, sup, k)
                         && s.dialer.control == Done(Agreed(names[k]))
                         && s.listener.control == Ended(Agreed(names[k])))
    || (&& (forall n | n in names :: n !in sup)
        && s.dialer.control == Done(Failed)
        && s.listener.control == Ended(Failed))
  }

  /** Trying the names in turn is safe if all of them can be told, or a supported one comes
      before those that cannot. Otherwise it takes a garbled name that is excused, because
      it follows a rejection and is not settled on, and that there is no supported name. */
  predicate SafeInTurn(version: Version, names: seq<Name>, sup: seq<Name>) {
    var k := FirstUntellable(names);
    || k == |names|
    || FirstCommon(names[..k], sup).Some?
    || (&& 0 < k && Garbled(names[k]) && Wire(Protocol(names[k])) == Bad(InvalidMessage)
        && (version == V1 || k + 1 < |names|) && FirstCommon(names, sup).None?)
  }

  /** Asking for the list is safe if it arrives, and the name picked from it can be told. */
  predicate SafeByList(names: seq<Name>, sup: seq<Name>) {
    Listable(sup) && (FirstCommon(names, sup).Some? ==> Readable(Protocol(FirstCommon(names, sup).value)))
  }

  function Promised(names: seq<Name>, sup: seq<Name>): Outcome {
    match FirstCommon(names, sup)
    case Some(n) => Agreed(n)
    case None => Failed
  }

  lemma PromisedOutcome(names: seq<Name>, sup: seq<Name>, s: System)
    ensures EndsAsPromised(names, sup, s)
       <==> s.dialer.control == Done(Promised(names, sup)) && s.listener.control == Ended(Promised(names, sup))
  {
    var k := FirstCommonPosition(names, sup);
  }

  lemma SafeInTurnIff(version: Version, names: seq<Name>, sup: seq<Name>)
    ensures SafeInTurn(version, names, sup)
       <==> SerialOutcome(version, names, sup) == Promised(names, sup) == ServedOutcome(names, sup, false)
  {
    SerialEnds(version, names, sup, false);
    EndAsPromisedIff(version, names, sup, SerialOutcome(version, names, sup), ServedOutcome(names, sup, false));
  }

  lemma EndAsPromisedIff(version: Version, names: seq<Name>, sup: seq<Name>, d: Outcome, l: Outcome)
    requires EndsInTurn(version, names, sup, false, d, l)
    ensures SafeInTurn(version, names, sup) <==> d == Promised(names, sup) == l
  {
    var k := FirstUntellable(names);
    FirstCommonOfPrefix(names, sup, k);
    if k == |names| {
      assert names[..k] == names;
    } else if Garbled(names[k]) {
      GarbledErrors(names[k], k > 0);
    }
  }

  /** Every finished run ends as promised exactly if the dialer's way of finding a name is safe
      for the names of the two. */
  lemma FirstSupportedNameWinsIff(cfg: Config, sup: seq<Name>, s: System)
    requires Announced(sup) && Finishes(cfg, sup, s)
    ensures EndsAsPromised(cfg.names, sup, s)
       <==> if cfg.strategy.Serial? then SafeInTurn(cfg.version, cfg.names, sup) else SafeByList(cfg.names, sup)
  {
    Agreement(cfg, sup, s);
    PromisedOutcome(cfg.names, sup, s);
    SafeInTurnIff(cfg.version, cfg.names, sup);
  }

  // ------------------------------------------------------------------ strategy

  ghost predicate EndAlike(s: System, t: System) {
    s.dialer.control == t.dialer.control && s.listener.control == t.listener.control
  }

  /** A finished run. */
  ghost predicate Finishes(cfg: Config, sup: seq<Name>, s: System) {
    Reachable(cfg, sup, s) && BothDone(s)
  }

  /** The same errors on both ways: a garbled name that the listener takes for invalid data, as
      it does its own list when that is too long; or one that the dialer has settled on. */
  predicate SpoiltAlike(version: Version, names: seq<Name>, sup: seq<Name>) {
    var k := FirstUntellable(names);
    && k < |names| && Garbled(names[k]) && FirstCommon(names[..k], sup).None?
    && if !ListFits(sup) then
         (version == V1 || k + 1 < |names|) && Wire(Protocol(names[k])) == Bad(IoError(InvalidData))
       else
         && Listable(sup) && version == V1Lazy && k + 1 == |names| && names[k] in sup
         && (k == 0 || Wire(Protocol(names[k])) != Bad(InvalidMessage))
  }

  predicate SameOutcomes(cfg: Config, cfg': Config, sup: seq<Name>) {
    DialerOutcome(cfg, sup) == DialerOutcome(cfg', sup) && ListenerOutcome(cfg, sup) == ListenerOutcome(cfg', sup)
  }

  lemma FinishedAlikeIff(cfg: Config, cfg': Config, sup: seq<Name>, s: System, s': System)
    requires Announced(sup) && Finishes(cfg, sup, s) && Finishes(cfg', sup, s')
    ensures EndAlike(s, s') <==> SameOutcomes(cfg, cfg', sup)
  {
    Agreement(cfg, sup, s);
    Agreement(cfg', sup, s');
  }

  lemma OutcomesAlikeIff(names: seq<Name>, sup: seq<Name>, version: Version, version': Version)
    requires Announced(sup)
    ensures SameOutcomes(Config(Serial, version, names), Config(Parallel, version', names), sup)
       <==> (SafeInTurn(version, names, sup) && SafeByList(names, sup)) || SpoiltAlike(version, names, sup)
  {
    var serial, parallel := Config(Serial, version, names), Config(Parallel, version', names);
    SerialEnds(version, names, sup, false);
    if SafeByList(names, sup) {
      SafeInTurnIff(version, names, sup);
      assert DialerOutcome(parallel, sup) == ListenerOutcome(parallel, sup) == Promised(names, sup);
      SafeIsNotSpoilt(version, names, sup);
    } else if !ListFits(sup) {
      TooLongAlikeIff(version, names, sup, DialerOutcome(serial, sup), ListenerOutcome(serial, sup));
    } else if Listable(sup) {
      ChoiceIsSendable(names, sup);
      CutOffAlikeIff(version, names, sup, DialerOutcome(serial, sup), ListenerOutcome(serial, sup));
    } else {
      NeverTooMany(version, names, sup, DialerOutcome(serial, sup), ListenerOutcome(serial, sup));
    }
  }

  lemma SafeIsNotSpoilt(version: Version, names: seq<Name>, sup: seq<Name>)
    requires SafeByList(names, sup)
    ensures !SpoiltAlike(version, names, sup)
  {
    FirstCommonOfPrefix(names, sup, FirstUntellable(names));
  }

  lemma NeverTooMany(version: Version, names: seq<Name>, sup: seq<Name>, d: Outcome, l: Outcome)
    requires EndsInTurn(version, names, sup, false, d, l)
    ensures d != Violation(TooManyProtocols)
  {
  }

  lemma TooLongAlikeIff(version: Version, names: seq<Name>, sup: seq<Name>, d: Outcome, l: Outcome)
    requires EndsInTurn(version, names, sup, false, d, l) && !ListFits(sup)
    ensures d == Failed && l == TOO_LONG <==> SpoiltAlike(version, names, sup)
  {
    var k := FirstUntellable(names);
    if k < |names| && Garbled(names[k]) {
      GarbledErrors(names[k], k > 0);
    }
  }

  lemma CutOffAlikeIff(version: Version, names: seq<Name>, sup: seq<Name>, d: Outcome, l: Outcome)
    requires EndsInTurn(version, names, sup, false, d, l) && Listable(sup)
    requires FirstCommon(names, sup).Some? && Garbled(FirstCommon(names, sup).value)
    ensures d == CUT_OFF && l == Refusal(false, Wire(Protocol(FirstCommon(names, sup).value)))
       <==> SpoiltAlike(version, names, sup)
  {
    var k := FirstUntellable(names);
    if FirstCommon(names[..k], sup).Some? {
      assert d.Agreed?;
    } else if k == |names| {
      assert d == Failed;
    } else if k + 1 < |names| || !Garbled(names[k]) {
      assert d != CUT_OFF;
    } else {
      LastIsCommon(names, sup);
      FirstCommonIsCommon(names, sup);
      RefusalsAlikeIff(names[k], k > 0);
    }
  }

  lemma RefusalsAlikeIff(n: Name, na: bool)
    requires Garbled(n)
    ensures Refusal(na, Wire(Protocol(n))) == Refusal(false, Wire(Protocol(n)))
       <==> !na || Wire(Protocol(n)) != Bad(InvalidMessage)
  {
    GarbledErrors(n, na);
    GarbledErrors(n, false);
  }

  lemma {:induction false} LastIsCommon(names: seq<Name>, sup: seq<Name>)
    requires names != [] && FirstCommon(names[..|names| - 1], sup).None? && FirstCommon(names, sup).Some?
    ensures FirstCommon(names, sup).value == names[|names| - 1]
  {
    if |names| > 1 {
      assert names[..|names| - 1][1..] == names[1..][..|names| - 2];
      LastIsCommon(names[1..], sup);
    }
  }

  /** Finished runs of the two strategies, for the same names and of whatever versions, end
      alike on both sides exactly if both ways are safe, or spoilt by the same error. */
  lemma StrategiesAgreeIff(names: seq<Name>, sup: seq<Name>, v: Version, v': Version, s: System, s': System)
    requires Announced(sup)
    requires Finishes(Config(Serial, v, names), sup, s) && Finishes(Config(Parallel, v', names), sup, s')
    ensures EndAlike(s, s')
       <==> (SafeInTurn(v, names, sup) && SafeByList(names, sup)) || SpoiltAlike(v, names, sup)
  {
    FinishedAlikeIff(Config(Serial, v, names), Config(Parallel, v', names), sup, s, s');
    OutcomesAlikeIff(names, sup, v, v');
  }

  /** For names that can be told, size hint and version matter for how a negotiation ends
      exactly if the hints lead to different strategies and the listener's list does not
      arrive. */
  lemma SizeHintMattersIff(
    names: seq<Name>, sup: seq<Name>,
    hint: Option<nat>, version: Version, s: System,
    hint': Option<nat>, version': Version, s': System)
    requires Announced(sup) && forall n | n in names :: Tellable(n)
    requires Finishes(Config(ChooseStrategy(hint), version, names), sup, s)
    requires Finishes(Config(ChooseStrategy(hint'), version', names), sup, s')
    ensures EndAlike(s, s') <==> ChooseStrategy(hint) == ChooseStrategy(hint') || Listable(sup)
  {
    var cfg, cfg' := Config(ChooseStrategy(hint), version, names), Config(ChooseStrategy(hint'), version', names);
    FinishedAlikeIff(cfg, cfg', sup, s, s');
    assert FirstUntellable(names) == |names|;
    SerialEnds(version, names, sup, false);
    SerialEnds(version', names, sup, false);
    OutcomesAlikeIff(names, sup, version, version');
    OutcomesAlikeIff(names, sup, version', version);
    FirstCommonIsCommon(names, sup);
  }

  /** A dialer asks for the list exactly if its number of names is not known to be at most three. */
  lemma AsksForListIff(hint: Option<nat>, version: Version, names: seq<Name>, sup: seq<Name>, s: System)
    requires Announced(sup) && Finishes(Config(ChooseStrategy(hint), version, names), sup, s)
    ensures ListProtocols in s.dialer.sent <==> hint.None? || hint.value > 3
  {
    var cfg := Config(ChooseStrategy(hint), version, names);
    TranscriptIsFixed(cfg, sup, s);
    if cfg.strategy.Serial? {
      ProposalsAreNames(names, sup);
    } else {
      assert Said(cfg, sup)[1] == ListProtocols;
    }
  }

  lemma {:induction false} ProposalsAreNames(names: seq<Name>, sup: seq<Name>)
    ensures forall m | m in Proposals(names, sup) :: m.Protocol?
  {
    if names != [] {
      ProposalsAreNames(names[1..], sup);
    }
  }

  lemma FinishedRun(cfg: Config, sup: seq<Name>) returns (s: System)
    requires Announced(sup)
    ensures Finishes(cfg, sup, s)
    ensures s.dialer.control == Done(DialerOutcome(cfg, sup)) && s.listener.control == Ended(ListenerOutcome(cfg, sup))
  {
    InitIsReachable(cfg, sup);
    s := RunsCanFinish(cfg, sup, INIT);
    Agreement(cfg, sup, s);
  }

  const SLASH_NAME: Name := [SLASH]

  function Copies(k: nat): seq<Name> {
    if k == 0 then [] else [SLASH_NAME] + Copies(k - 1)
  }

  lemma {:induction false} CopiesTakeThreeBytes(k: nat)
    ensures |EncodeList(Copies(k))| == 3 * k && |Copies(k)| == k
    ensures forall n | n in Copies(k) :: n == SLASH_NAME
    ensures k > 0 ==> SLASH_NAME in Copies(k)
  {
    if k > 0 {
      CopiesTakeThreeBytes(k - 1);
      assert Copies(k)[1..] == Copies(k - 1) && Copies(k)[0] == SLASH_NAME;
    }
  }

  /** A listener with more than 1000 names: the dialer's only name is supported, and yet the
      parallel dialer ends with an error; if the list is too long for a frame, so does the
      listener, and the dialer fails. */
  lemma ManyNamesMatter(k: nat) returns (s: System, s': System)
    requires k > MAX_PROTOCOLS
    ensures Finishes(Config(Serial, V1, [SLASH_NAME]), Copies(k), s)
    ensures Finishes(Config(Parallel, V1, [SLASH_NAME]), Copies(k), s')
    ensures s.dialer.control == Done(Agreed(SLASH_NAME)) && s.listener.control == Ended(Agreed(SLASH_NAME))
    ensures if 3 * k < 16383
            then s'.dialer.control == Done(Violation(TooManyProtocols)) && s'.listener.control == Ended(Failed)
            else s'.dialer.control == Done(Failed) && s'.listener.control == Ended(TOO_LONG)
  {
    CopiesTakeThreeBytes(k);
    s := FinishedRun(Config(Serial, V1, [SLASH_NAME]), Copies(k));
    s' := FinishedRun(Config(Parallel, V1, [SLASH_NAME]), Copies(k));
  }

  lemma SecondIsListed(x: Name)
    requires x != SLASH_NAME
    ensures var cfg, sup := Config(Parallel, V1, [x, SLASH_NAME]), [SLASH_NAME];
            Announced(sup) && DialerOutcome(cfg, sup) == Agreed(SLASH_NAME) == ListenerOutcome(cfg, sup)
  {
    var names, sup := [x, SLASH_NAME], [SLASH_NAME];
    CopiesTakeThreeBytes(1);
    assert sup == Copies(1) && names[1..] == [SLASH_NAME];
    assert FirstCommon(names, sup) == FirstCommon([SLASH_NAME], sup) == Some(SLASH_NAME);
  }

  /** A dialer with an invalid name before a supported one: tried in turn, the names end in an
      error; looked up in the list, the second one is agreed upon. */
  lemma InvalidNameMatters() returns (s: System, s': System)
    ensures var names, sup := [[], SLASH_NAME], [SLASH_NAME];
            && Finishes(Config(Serial, V1, names), sup, s) && Finishes(Config(Parallel, V1, names), sup, s')
            && s.dialer.control == Done(Violation(InvalidProtocol)) && s.listener.control == Ended(Failed)
            && s'.dialer.control == Done(Agreed(SLASH_NAME)) && s'.listener.control == Ended(Agreed(SLASH_NAME))
  {
    var names, sup := [[], SLASH_NAME], [SLASH_NAME];
    SecondIsListed([]);
    s := FinishedRun(Config(Serial, V1, names), sup);
    s' := FinishedRun(Config(Parallel, V1, names), sup);
  }

  /** `/` with a line feed after it. */
  const GARBLED_NAME: Name := [SLASH, LF]

  lemma GarbledNameIsGarbled()
    ensures Garbled(GARBLED_NAME) && Wire(Protocol(GARBLED_NAME)) == Bad(InvalidMessage)
  {
    var e := Messages.Encode(Protocol(GARBLED_NAME));
    assert e == [SLASH, LF, LF];
    assert e[..2] == GARBLED_NAME && LF in GARBLED_NAME;
    assert Digits(e, 10, true) == Value(47, e[1..]);
  }

  /** A dialer with a garbled name before a supported one: tried in turn, the negotiation breaks
      off; looked up in the list, the second name is agreed upon. */
  lemma GarbledNameMatters() returns (s: System, s': System)
    ensures var names, sup := [GARBLED_NAME, SLASH_NAME], [SLASH_NAME];
            && Finishes(Config(Serial, V1, names), sup, s) && Finishes(Config(Parallel, V1, names), sup, s')
            && s.dialer.control == Done(Failed) && s.listener.control == Ended(Violation(InvalidMessage))
            && s'.dialer.control == Done(Agreed(SLASH_NAME)) && s'.listener.control == Ended(Agreed(SLASH_NAME))
  {
    var names, sup := [GARBLED_NAME, SLASH_NAME], [SLASH_NAME];
    GarbledNameIsGarbled();
    SecondIsListed(GARBLED_NAME);
    s := FinishedRun(Config(Serial, V1, names), sup);
    s' := FinishedRun(Config(Parallel, V1, names), sup);
    GarbledFirst(names, sup);
  }

  lemma GarbledFirst(names: seq<Name>, sup: seq<Name>)
    requires |names| > 1 && Garbled(names[0])
    ensures SerialOutcome(V1, names, sup) == Failed
    ensures ServedOutcome(names, sup, false) == Refusal(false, Wire(Protocol(names[0])))
  {
  }

  /** Once a parallel dialer has settled, the only thing the listener can still say is the
      confirmation of that very name. */
  lemma SettledDialerHearsConfirmation(cfg: Config, sup: seq<Name>, s: System, i: nat)
    requires Announced(sup) && Reachable(cfg, sup, s) && cfg.strategy.Parallel?
    requires s.dialer.control.Settled? && |s.dialer.read| <= i < |s.listener.sent|
    ensures Wire(s.listener.sent[i]) == Good(Protocol(s.dialer.control.name))
  {
    ReachableInv(cfg, sup, s);
    ListenerTotalBound(cfg, sup, s);
    SettledMeansExpecting(cfg, s.dialer);
    SettledAfterTwo(cfg, sup, s.dialer.read);
    ThirdIsConfirmation(cfg, sup, s.listener.sent, i);
  }

  lemma SettledMeansExpecting(cfg: Config, d: Side<DialerControl>)
    requires DialerInv(cfg, d) && d.control.Settled?
    ensures Run(cfg, d.read).stage == Expecting(d.control.name, d.control.header)
  {
  }

  lemma ThirdIsConfirmation(cfg: Config, sup: seq<Name>, sent: seq<Message>, i: nat)
    requires Announced(sup) && cfg.strategy.Parallel? && sent <= Heard(cfg, sup) && 2 <= i < |sent|
    ensures FirstCommon(cfg.names, sup).Some?
    ensures Wire(sent[i]) == Good(Protocol(FirstCommon(cfg.names, sup).value))
  {
    ChoiceIsSendable(cfg.names, sup);
    assert sent[i] == Heard(cfg, sup)[i] == Protocol(FirstCommon(cfg.names, sup).value);
    TellableArrives(FirstCommon(cfg.names, sup).value);
  }

  lemma UnsettledBeforeList(cfg: Config)
    requires cfg.strategy.Parallel?
    ensures !Run(cfg, []).stage.Expecting? && !Run(cfg, [Good(Header)]).stage.Expecting?
  {
    assert [Good(Header)] == [Good(Header)] + [];
    RunOne(cfg, Start(cfg), Good(Header), []);
  }

  lemma SettledOnFirstCommon(cfg: Config, sup: seq<Name>, read: seq<Item>)
    requires cfg.strategy.Parallel? && Announced(sup) && ListFits(sup)
    requires read == [Good(Header), Wire(Protocols(sup))] && Run(cfg, read).stage.Expecting?
    ensures FirstCommon(cfg.names, sup) == Some(Run(cfg, read).stage.name)
  {
    ListArrives(sup);
    assert read == read + [];
    RunTwo(cfg, Start(cfg), Good(Header), Wire(Protocols(sup)), []);
  }

  lemma SettledAfterTwo(cfg: Config, sup: seq<Name>, read: seq<Item>)
    requires Announced(sup) && cfg.strategy.Parallel?
    requires read <= WireAll(Heard(cfg, sup)) && Run(cfg, read).stage.Expecting?
    ensures |read| == 2 && FirstCommon(cfg.names, sup) == Some(Run(cfg, read).stage.name)
  {
    var heard := WireAll(Heard(cfg, sup));
    ConstantsArrive();
    assert |heard| <= 3 && read == heard[..|read|];
    if |read| < 2 {
      assert read == [] || read == [Good(Header)];
      UnsettledBeforeList(cfg);
    } else if |read| == 2 {
      SettledOnFirstCommon(cfg, sup, read);
    } else if |read| == 3 {
      assert read == heard;
      ParallelDialerConverses(cfg, sup);
    }
  }

  // ------------------------------------------------------------------ laziness

  /** What crossed the wire in a finished run, in both directions, does not depend on the
      version or the interleaving. A dialer that fails before its first proposal sends
      nothing, since its header is dropped unflushed, and hears nothing. */
  lemma TranscriptIsFixed(cfg: Config, sup: seq<Name>, s: System)
    requires Announced(sup) && Finishes(cfg, sup, s)
    ensures if Start(cfg).stage.Over? then s.dialer.sent == [] == s.listener.sent
            else s.dialer.sent == Said(cfg, sup) && s.listener.sent == Heard(cfg, sup)
  {
    ReachableInv(cfg, sup, s);
    DialerTotalBound(cfg, sup, s);
    ListenerTotalBound(cfg, sup, s);
    ConversationIsFixpoint(cfg, sup);
    ListenerQueuesWithinServe(sup, s.listener);
    if Start(cfg).stage.Over? {
      OverDialerReadsNothing(cfg, s.dialer);
      assert s.listener.read == [];
    } else {
      DoneDialerIsDrained(cfg, sup, s);
      assert s.listener.sent == Total(s.listener);
    }
  }

  lemma OverDialerReadsNothing(cfg: Config, d: Side<DialerControl>)
    requires DialerInv(cfg, d) && d.control.Done? && Start(cfg).stage.Over?
    ensures d.read == [] && !d.eof && d.sent == []
  {
  }

  lemma DoneDialerIsDrained(cfg: Config, sup: seq<Name>, s: System)
    requires Announced(sup) && Inv(cfg, sup, s) && s.dialer.control.Done? && !Start(cfg).stage.Over?
    ensures s.dialer.sent == Said(cfg, sup)
  {
    DialerTotalBound(cfg, sup, s);
  }

  /** V1Lazy is identical to V1 on the wire. */
  lemma LazyLooksTheSame(names: seq<Name>, sup: seq<Name>, s: System, s': System)
    requires Announced(sup)
    requires Finishes(Config(Serial, V1, names), sup, s) && Finishes(Config(Serial, V1Lazy, names), sup, s')
    ensures s.dialer.sent == s'.dialer.sent && s.listener.sent == s'.listener.sent
  {
    TranscriptIsFixed(Config(Serial, V1, names), sup, s);
    TranscriptIsFixed(Config(Serial, V1Lazy, names), sup, s');
  }

  /** Finished runs of the two versions end alike exactly if the dialer does not come to a
      garbled last name. If it does, the lazy dialer has settled on it, and takes for an
      error what the other one takes for a failure. */
  lemma LazyEndsAlikeIff(names: seq<Name>, sup: seq<Name>, s: System, s': System)
    requires Announced(sup)
    requires Finishes(Config(Serial, V1, names), sup, s) && Finishes(Config(Serial, V1Lazy, names), sup, s')
    ensures var k := FirstUntellable(names);
            EndAlike(s, s') <==> !(k + 1 == |names| && Garbled(names[k]) && FirstCommon(names[..k], sup).None?)
  {
    FinishedAlikeIff(Config(Serial, V1, names), Config(Serial, V1Lazy, names), sup, s, s');
    SerialEnds(V1, names, sup, false);
    SerialEnds(V1Lazy, names, sup, false);
    LazyOutcomesAlikeIff(names, sup, SerialOutcome(V1, names, sup), SerialOutcome(V1Lazy, names, sup),
                         ServedOutcome(names, sup, false));
  }

  lemma LazyOutcomesAlikeIff(names: seq<Name>, sup: seq<Name>, d: Outcome, d': Outcome, l: Outcome)
    requires EndsInTurn(V1, names, sup, false, d, l) && EndsInTurn(V1Lazy, names, sup, false, d', l)
    ensures var k := FirstUntellable(names);
            d == d' <==> !(k + 1 == |names| && Garbled(names[k]) && FirstCommon(names[..k], sup).None?)
  {
  }

  function Rejections(items: seq<Item>): nat {
    if items == [] then 0 else (if items[0] == Good(NotAvailable) then 1 else 0) + Rejections(items[1..])
  }

  lemma {:induction false} SettlingTakesRejections(cfg: Config, d: Dialer, items: seq<Item>)
    requires d.stage.Await? || d.stage.Expecting?
    requires RunFrom(cfg, d, items).stage.Expecting?
    ensures var end := RunFrom(cfg, d, items).stage.name;
            match d.stage
            case Await(_, rest) => rest != [] && end == rest[|rest| - 1] && Rejections(items) == |rest|
            case Expecting(n, _) => end == n && Rejections(items) == 0
    decreases |items|
  {
    if items != [] {
      RunGrows(cfg, React(cfg, d, items[0]), items[1..]);
      SettlingTakesRejections(cfg, React(cfg, d, items[0]), items[1..]);
    }
  }

  /** Whatever the peer does, a serial dialer settles early only if it is lazy, only on its
      last name, and only after each earlier one was rejected. */
  lemma LazyDialerSettlesLast(cfg: Config, d: Side<DialerControl>)
    requires cfg.strategy.Serial? && DialerInv(cfg, d) && d.control.Settled?
    ensures cfg.version == V1Lazy && cfg.names != []
    ensures d.control.name == cfg.names[|cfg.names| - 1]
    ensures Rejections(d.read) == |cfg.names| - 1
  {
    RunGrows(cfg, Start(cfg), d.read);
    SettlingTakesRejections(cfg, Start(cfg), d.read);
    if cfg.version == V1 {
      EagerNeverSettles(cfg, Start(cfg), d.read);
    }
  }

  lemma {:induction false} EagerNeverSettles(cfg: Config, d: Dialer, items: seq<Item>)
    requires cfg.version == V1 && (d.stage.Await? || d.stage.Over?)
    ensures !RunFrom(cfg, d, items).stage.Expecting?
    decreases |items|
  {
    if items != [] {
      EagerNeverSettles(cfg, React(cfg, d, items[0]), items[1..]);
    }
  }

  // ---------------------------------------------------------- early settlements

  lemma {:induction false} AnswersSnoc(items: seq<Item>, x: Item)
    ensures Answers(items + [x]) == Answers(items) + (if x == Good(Header) then 0 else 1)
  {
    if items != [] {
      assert (items + [x])[1..] == items[1..] + [x];
      AnswersSnoc(items[1..], x);
    }
  }

  /** Whatever the peer does: when a settled dialer reads the confirmation, its write buffer is
      empty, as is asserted then, exactly if the stream has taken one message more than the
      peer had answered before. So the assertion fails exactly if the peer confirms what it
      was not told. */
  lemma EarlySettlementReleasedIff(cfg: Config, d: Side<DialerControl>, item: Item)
    requires DialerInv(cfg, d) && d.control.Settled?
    requires var next := DialerReceive(cfg, d.control, item); next.Done? && next.outcome.Agreed?
    ensures var d' := DialerStep(cfg, d, Receive(item));
            d'.buffer == [] <==> |d'.sent| == 1 + Answers(d'.read)
  {
    WaitingDialerTotal(cfg, d);
    AnswersSnoc(d.read, item);
  }

  /** These steps lead a dialer from one state to another, whatever its peer does. */
  ghost predicate StepsLeadTo(cfg: Config, d: Side<DialerControl>, steps: seq<Step>, end: Side<DialerControl>)
    decreases |steps|
  {
    if steps == [] then d == end
    else DialerEnabled(d, steps[0]) && StepsLeadTo(cfg, DialerStep(cfg, d, steps[0]), steps[1..], end)
  }

  lemma FirstStepLeadsTo(
    cfg: Config, d: Side<DialerControl>, step: Step, steps: seq<Step>, end: Side<DialerControl>)
    requires DialerEnabled(d, step) && StepsLeadTo(cfg, DialerStep(cfg, d, step), steps, end)
    ensures StepsLeadTo(cfg, d, [step] + steps, end)
  {
    assert ([step] + steps)[1..] == steps;
  }

  /** A lazy dialer whose stream takes nothing, and a peer that confirms unasked: from its
      beginning the dialer comes to agree with all it has to say still in its buffer. */
  lemma UnpromptedConfirmation(n: Name) returns (d: Side<DialerControl>)
    requires WellFormed(n) && Sendable(Protocol(n))
    ensures StepsLeadTo(Config(Serial, V1Lazy, [n]), INIT.dialer,
                        [Act] + ([Act] + ([Receive(Good(Header))] + ([Receive(Good(Protocol(n)))] + []))), d)
    ensures d.control == Done(Agreed(n)) && d.sent == [] && d.buffer == [Header, Protocol(n)]
  {
    var cfg := Config(Serial, V1Lazy, [n]);
    ConstantsArrive();
    var d1 := DialerStep(cfg, INIT.dialer, Act);
    var d2 := DialerStep(cfg, d1, Act);
    assert d2.control == Settled(n, true) && d2.buffer == [Header, Protocol(n)];
    var d3 := DialerStep(cfg, d2, Receive(Good(Header)));
    d := DialerStep(cfg, d3, Receive(Good(Protocol(n))));
    FirstStepLeadsTo(cfg, d3, Receive(Good(Protocol(n))), [], d);
    FirstStepLeadsTo(cfg, d2, Receive(Good(Header)), [Receive(Good(Protocol(n)))] + [], d);
    FirstStepLeadsTo(cfg, d1, Act, [Receive(Good(Header))] + ([Receive(Good(Protocol(n)))] + []), d);
    FirstStepLeadsTo(cfg, INIT.dialer, Act, [Act] + ([Receive(Good(Header))] + ([Receive(Good(Protocol(n)))] + [])), d);
  }

  // ------------------------------------------------- early data after a rejection

  /** What a listener that waits for a message, perhaps after a rejection, makes of all that
      follows. */
  function EndOf(sup: seq<Name>, na: bool, out: seq<Message>, items: seq<Item>): Outcome {
    ListenerAtEof(ServeFrom(sup, Listener(RecvMessage(na), out), items).stage)
  }

  /** An item that the listener answers and that leaves it waiting. */
  predicate Asks(sup: seq<Name>, item: Item) {
    match item
    case Good(ListProtocols) => ListFits(sup)
    case Good(Protocol(n)) => n !in sup
    case _ => false
  }

  /** How many items in front are such questions. */
  function Questions(sup: seq<Name>, items: seq<Item>): (k: nat)
    ensures k <= |items| && (forall i | 0 <= i < k :: Asks(sup, items[i]))
    ensures k < |items| ==> !Asks(sup, items[k])
  {
    if items == [] || !Asks(sup, items[0]) then 0 else 1 + Questions(sup, items[1..])
  }

  /** Whatever follows, the first item that is no question decides: a supported name is agreed
      upon, an unreadable item is excused if the item before it was a proposal. */
  lemma {:induction false} FirstNoQuestionDecides(sup: seq<Name>, na: bool, out: seq<Message>, items: seq<Item>)
    ensures var k, end := Questions(sup, items), EndOf(sup, na, out, items);
            if k == |items| then end == Failed
            else match items[k]
              case Bad(e) =>
                end == ReadErrorOutcome(if k == 0 then na else items[k - 1] != Good(ListProtocols), e)
              case Good(Protocol(n)) => end == if Sendable(Protocol(n)) then Agreed(n) else TOO_LONG
              case Good(ListProtocols) => end == TOO_LONG
              case Good(_) => end == Violation(InvalidMessage)
    decreases |items|
  {
    if items != [] {
      var l := Answer(sup, Listener(RecvMessage(na), out), items[0]);
      ConstantsArrive();
      if Asks(sup, items[0]) {
        FirstNoQuestionDecides(sup, l.stage.lastSentNa, l.out, items[1..]);
      } else {
        ServeGrows(sup, l, items[1..]);
      }
    }
  }

  /** A dialer settles on its last name, which the listener rejects like all the others, and has
      sent data by then. The listener takes that data for the next message. */
  lemma EarlyDataIsTakenForMessages(names: seq<Name>, sup: seq<Name>, early: Bytes)
    requires names != [] && forall n | n in names :: Tellable(n) && n !in sup
    ensures var cfg := Config(Serial, V1Lazy, names);
            && DialerOutcome(cfg, sup) == Failed
            && ListenerAtEof(Serve(sup, WireAll(Said(cfg, sup)) + Items(early)).stage)
               == EndOf(sup, true, Heard(cfg, sup), Items(early))
  {
    var cfg := Config(Serial, V1Lazy, names);
    SerialEnds(V1Lazy, names, sup, false);
    FirstCommonIsCommon(names[..FirstUntellable(names)], sup);
    SerialListenerWaits(cfg, sup);
    ServeFromConcat(sup, Listener(Negotiation.RecvHeader, []), WireAll(Said(cfg, sup)), Items(early));
  }

  lemma SerialListenerWaits(cfg: Config, sup: seq<Name>)
    requires cfg.strategy.Serial? && cfg.names != [] && forall n | n in cfg.names :: Tellable(n) && n !in sup
    ensures Serve(sup, WireAll(Said(cfg, sup))) == Listener(RecvMessage(true), Heard(cfg, sup))
  {
    assert cfg.names[0] in cfg.names;
    SerialEnds(cfg.version, cfg.names, sup, false);
    FirstCommonIsCommon(cfg.names[..FirstUntellable(cfg.names)], sup);
    NoGarbles(cfg.names, sup);
    SerialSidesConverse(cfg, sup);
  }

  lemma {:induction false} NoGarbles(names: seq<Name>, sup: seq<Name>)
    requires forall n | n in names :: Tellable(n)
    ensures !Garbles(names, sup)
  {
    if names != [] {
      assert names[0] in names;
      NoGarbles(names[1..], sup);
    }
  }

  /** Early data that happens to be a proposal of a supported name: the listener agrees on it,
      and the dialer has failed. */
  lemma EarlyDataIsAgreedUpon(n: Name, m: Name, sup: seq<Name>)
    requires Tellable(n) && n !in sup && Tellable(m) && m in sup
    ensures var cfg, early := Config(Serial, V1Lazy, [n]), EncodeFrame(Messages.Encode(Protocol(m)));
            && DialerOutcome(cfg, sup) == Failed
            && ListenerAtEof(Serve(sup, WireAll(Said(cfg, sup)) + Items(early)).stage) == Agreed(m)
  {
    var cfg, early := Config(Serial, V1Lazy, [n]), EncodeFrame(Messages.Encode(Protocol(m)));
    TellableArrives(m);
    assert early + [] == early;
    ItemsStep(Messages.Encode(Protocol(m)), []);
    assert Items(early) == [Good(Protocol(m))];
    EarlyDataIsTakenForMessages([n], sup, early);
    FirstNoQuestionDecides(sup, true, Heard(cfg, sup), Items(early));
  }

  /** Garbage after a rejection is a graceful failure exactly if the stream ends inside
      the first frame or that frame is an invalid message. A bad length prefix, or a
      frame whose name list has a bad length, a bad name or too many names, is still
      raised as a protocol error. */
  lemma GarbageIsGracefulIff(sup: seq<Name>, out: seq<Message>, payload: Bytes)
    requires Items(payload) != [] ==> Items(payload)[0].Bad?
    ensures EndOf(sup, true, out, Items(payload)) == Failed
       <==> match ParseFrame(payload)
            case End => true
            case Fail(e) => e == UnexpectedEof
            case Frame(p, _) => Decode(p) == Err(InvalidMessage)
  {
    FirstNoQuestionDecides(sup, true, out, Items(payload));
    var f := ParseFrame(payload);
    if f.Frame? {
      ParsesExactlyEncodings(payload, f.payload, f.rest);
      assert Items(payload)[0] == ItemOf(f.payload);
      DecodeListErrors(f.payload, 0);
    }
  }

  /** The payload `1, 128` is unreadable, and yet the listener reports a violation. */
  lemma UngracefulGarbage(sup: seq<Name>, out: seq<Message>)
    ensures EndOf(sup, true, out, Items([1, 128])) == Violation(IoError(InvalidData))
    ensures EndOf(sup, true, out, Items([1, 1])) == Failed
    ensures EndOf(sup, true, out, Items([42, 1])) == Failed
  {
    assert ParseFrame([1, 128]) == Frame([128], []) && ParseFrame([1, 1]) == Frame([1], []);
    assert Decode([128]) == Err(IoError(InvalidData)) by {
      assert Digits([128][1..], 9, false) == Insufficient;
    }
    assert Digits([1], 10, true) == Value(1, [1][1..]);
    assert Decode([1]) == Err(InvalidMessage);
    assert Items([1, 128])[0] == Bad(IoError(InvalidData));
    assert Items([1, 1])[0] == Bad(InvalidMessage);
    assert Items([42, 1])[0] == Bad(IoError(UnexpectedEof));
    FirstNoQuestionDecides(sup, true, out, Items([1, 128]));
    FirstNoQuestionDecides(sup, true, out, Items([1, 1]));
    FirstNoQuestionDecides(sup, true, out, Items([42, 1]));
  }

  // -------------------------------------------------------------------- limits

  /** A first proposal is taken as a violation exactly if its name cannot be told over the
      wire: it has a line feed in it, or spells the header. */
  lemma FirstProposalViolatesIff(sup: seq<Name>, n: Name)
    requires NameInvariant(n)
    ensures Serve(sup, [Good(Header), Wire(Protocol(n))]).stage.Finished?
         && Serve(sup, [Good(Header), Wire(Protocol(n))]).stage.outcome.Violation?
         && Serve(sup, [Good(Header), Wire(Protocol(n))]).out == [Header]
       <==> !Readable(Protocol(n)) || (n in sup && !Sendable(Protocol(n)))
  {
    ConstantsArrive();
    RoundTripIff(Protocol(n));
    var x := Wire(Protocol(n));
    assert [Good(Header), x] == [Good(Header), x] + [];
    ServeTwo(sup, Listener(Negotiation.RecvHeader, []), Good(Header), x, []);
    assert Answer(sup, Listener(Negotiation.RecvHeader, []), Good(Header)) == Listener(RecvMessage(false), [Header]);
    assert Messages.Encode(Protocol(n))[0] == SLASH;
    if !Readable(Protocol(n)) {
      assert Messages.Encode(Protocol(n))[..|n|] == n;
    }
  }
}
