/** Finding the attributes of a start tag: `getAtts`, and when a value needs no normalization. */
module AttributeList {
  import opened Bytes
  import opened ByteTypes
  import opened Common
  import opened ContentAutomaton
  import opened AttributeText
  import opened AttributeValue

  // ----- what the automaton says the attributes are

  datatype Span = Span(name: nat, value: nat, end: nat)

  /** The attributes met on the way from a position to the end of the tag, the current one being already begun. */
  ghost function Spans(enc: Encoding, st: State, s: Octets, i: nat, name: nat, value: nat): seq<Span>
    requires i <= |s|
    decreases |s| - i
  {
    if i == |s| then [] else
      var r := ReadAt(enc, st, s, i);
      if r.Short? || !r.move.Go? then [] else
        var to := r.move.to;
        var rest := Spans(enc, to, s, r.next, if BeginsName(st, to) then i else name,
                          if BeginsValue(st, to) then r.next else value);
        if EndsValue(st, to) then [Span(name, value, i)] + rest else rest
  }

  predicate BeginsName(st: State, to: State) {
    (st.StartSpace? || st.BetweenAtts?) && to.AttName?
  }

  predicate BeginsValue(st: State, to: State) {
    st.AttEquals? && to.Value?
  }

  predicate EndsValue(st: State, to: State) {
    st.Value? && to.AfterValue?
  }

  predicate IsTag(tok: Tok) {
    tok == StartTagWithAtts || tok == StartTagNoAtts || tok == EmptyElementWithAtts || tok == EmptyElementNoAtts
  }

  /** States of other markup than a start tag. */
  predicate OffTag(st: State) {
    match st
    case AfterExcl | CommentOpen | CommentBody | CommentDash | CommentDashDash | CdataOpen(_, _) => true
    case PiOpen | PiTarget(_) | PiQuest(_) | PiTargetQuest(_) | PiBody(_) | EndOpen | EndName | EndSpace => !PiOfTag(st)
    case _ => false
  }

  predicate PiOfTag(st: State) {
    match st
    case PiQuest(tok) => IsTag(tok)
    case PiTargetQuest(tok) => IsTag(tok)
    case PiBody(tok) => IsTag(tok)
    case _ => false
  }

  lemma OffTagPi(enc: Encoding, st: State, t: BT, ch: Octets)
    requires OffTag(st) && (st.PiOpen? || st.PiTarget? || st.PiTargetQuest? || st.PiBody? || st.PiQuest?)
    ensures var m := Step(enc, st, t, ch);
            (m.Go? ==> OffTag(m.to)) && (m.Done? ==> !IsTag(m.tok))
  {
    hide Refused, IsNmStrt, IsNameChar;
  }

  lemma OffTagStep(enc: Encoding, st: State, t: BT, ch: Octets)
    requires OffTag(st)
    ensures var m := Step(enc, st, t, ch);
            (m.Go? ==> OffTag(m.to)) && (m.Done? ==> !IsTag(m.tok))
  {
    hide Refused, IsNmStrt, IsNameChar;
    if st.PiOpen? || st.PiTarget? || st.PiTargetQuest? || st.PiBody? || st.PiQuest? {
      OffTagPi(enc, st, t, ch);
    }
  }

  lemma {:induction false} OffTagRun(enc: Encoding, st: State, s: Octets, i: nat)
    requires i <= |s| && OffTag(st) && Run(enc, st, s, i).Token?
    ensures !IsTag(Run(enc, st, s, i).tok)
    decreases |s| - i
  {
    hide Step, OffTag, UnitSize;
    var r := ReadAt(enc, st, s, i);
    OffTagStep(enc, st, ByteType(enc, s[i]), s[i..i + UnitSize(enc, st, s[i])]);
    if r.move.Go? {
      OffTagRun(enc, r.move.to, s, r.next);
    }
  }

  // ----- the three states of getAtts

  datatype Phase = Outside | Naming | Quoted(open: BT)

  predicate Within(phase: Phase, quote: BT) {
    (quote == Quot || quote == Apos) && phase == Quoted(quote)
  }

  /** How they stand for the states of the automaton. */
  predicate Stands(phase: Phase, st: State) {
    match st
    case AfterLt | StartName(_) | StartColon | AttName(_) | AttColon => phase == Naming
    case StartSpace | BetweenAtts | AfterValue | AttSpace => phase == Outside
    case AttEquals => !phase.Quoted?
    case Value(q) => Within(phase, q)
    case RefOpen(p) => p.InValue? && Within(phase, p.quote)
    case RefName(p) => p.InValue? && Within(phase, p.quote)
    case CharRefOpen(p) => p.InValue? && Within(phase, p.quote)
    case Decimal(p) => p.InValue? && Within(phase, p.quote)
    case HexOpen(p) => p.InValue? && Within(phase, p.quote)
    case Hexadecimal(p) => p.InValue? && Within(phase, p.quote)
    case _ => false
  }

  predicate StartsName(t: BT) {
    t == NmStrt || t == Hex || t == Lead2 || t == Lead3 || t == Lead4
  }

  function NextPhase(phase: Phase, t: BT): Phase {
    if t == Quot || t == Apos then
      if !phase.Quoted? then Quoted(t) else if phase.open == t then Outside else phase
    else if StartsName(t) then if phase.Outside? then Naming else phase
    else if IsBlank(t) then if phase.Naming? then Outside else phase
    else phase
  }

  predicate Leaves(phase: Phase, t: BT) {
    (t == Gt || t == Sol) && !phase.Quoted?
  }

  predicate IsReference(st: State) {
    st.RefOpen? || st.RefName? || st.CharRefOpen? || st.Decimal? || st.HexOpen? || st.Hexadecimal?
  }

  /** An attribute has begun. */
  predicate HasName(st: State) {
    st.AttName? || st.AttColon? || st.AttSpace? || st.AttEquals? || st.Value? || IsReference(st)
  }

  /** What a character does to both, inside a tag. */
  predicate MovesWith(phase: Phase, st: State, t: BT, m: Move) {
    PhaseMoves(phase, st, t, m) && SpanMoves(phase, st, t, m)
  }

  /** The tag ends for both, or both are in step afterwards. */
  predicate PhaseMoves(phase: Phase, st: State, t: BT, m: Move) {
    && (m.Done? ==> t == Gt && Leaves(phase, t))
    && (m.Go? && Leaves(phase, t) ==> m.to.Slash?)
    && (m.Go? && !Leaves(phase, t) ==> Stands(NextPhase(phase, t), m.to))
  }

  /** Names and values begin and end for both. */
  predicate SpanMoves(phase: Phase, st: State, t: BT, m: Move) {
    m.Go? && !Leaves(phase, t) ==>
      && (BeginsName(st, m.to) <==> phase.Outside? && StartsName(t))
      && (BeginsValue(st, m.to) <==> !phase.Quoted? && (t == Quot || t == Apos))
      && (EndsValue(st, m.to) <==> phase == Quoted(t))
      && (t == Amp ==> phase.Quoted?)
      && (IsReference(m.to) && !IsReference(st) ==> t == Amp)
      && (HasName(m.to) && !HasName(st) ==> BeginsName(st, m.to))
  }

  lemma NameClasses(enc: Encoding, t: BT, ch: Octets)
    ensures IsNmStrt(enc, t, ch) ==> StartsName(t)
    ensures IsNameChar(enc, t, ch) ==> StartsName(t) || t == Digit || t == Name || t == Minus
    ensures IsNmStrt(enc, t, ch) || IsNameChar(enc, t, ch) ==>
              t != Quot && t != Apos && t != Amp && t != Gt && t != Sol && !IsBlank(t)
  {
  }

  /** Outside values the state tells the phase. */
  lemma PhaseOf(phase: Phase, st: State)
    requires Stands(phase, st)
    ensures st.StartName? || st.AttName? ==> phase == Naming
    ensures st.StartSpace? || st.BetweenAtts? ==> phase == Outside
  {
  }

  lemma OutsideStands(hadColon: bool)
    ensures Stands(Naming, StartName(hadColon)) && Stands(Naming, StartColon) && Stands(Outside, StartSpace)
    ensures Stands(Naming, AttName(hadColon)) && Stands(Naming, AttColon) && Stands(Outside, AttSpace)
    ensures Stands(Naming, AttEquals) && Stands(Outside, AttEquals)
    ensures Stands(Outside, AfterValue) && Stands(Outside, BetweenAtts)
  {
  }

  lemma NextOutside(t: BT)
    ensures t != Quot && t != Apos && !IsBlank(t) ==> NextPhase(Naming, t) == Naming
    ensures IsBlank(t) ==> NextPhase(Naming, t) == NextPhase(Outside, t) == Outside
    ensures StartsName(t) ==> NextPhase(Outside, t) == Naming
  {
  }

  /** Inside a reference the phase is that of the value, until the quote. */
  lemma RefStands(phase: Phase, st: State, t: BT)
    requires Stands(phase, st) && IsReference(st)
    ensures var place := PlaceOf(st);
            && place.InValue? && (place.quote == Quot || place.quote == Apos) && phase == Quoted(place.quote)
            && (t != Quot && t != Apos ==> NextPhase(phase, t) == phase)
  {
    hide IsBlank, StartsName;
  }

  function PlaceOf(st: State): Place
    requires IsReference(st)
  {
    st.place
  }

  lemma QuotedRef(quote: BT, st: State)
    requires (quote == Quot || quote == Apos) && IsReference(st) && PlaceOf(st) == InValue(quote)
    ensures Stands(Quoted(quote), st)
  {
  }

  lemma QuotedValue(quote: BT)
    requires quote == Quot || quote == Apos
    ensures Stands(Quoted(quote), Value(quote))
  {
  }

  lemma StartNamePhase(enc: Encoding, phase: Phase, st: State, t: BT, ch: Octets)
    requires Stands(phase, st) && st.StartName?
    ensures PhaseMoves(phase, st, t, TagStep(enc, st, t, ch))
  {
    hide IsNmStrt, IsNameChar, TagStep, Stands, NextPhase, StartsName;
    NameClasses(enc, t, ch);
    StartNameStep(enc, st.hadColon, t, ch);
    PhaseOf(phase, st);
    OutsideStands(st.hadColon);
    NextOutside(t);
  }

  lemma StartNameSpans(enc: Encoding, phase: Phase, st: State, t: BT, ch: Octets)
    requires Stands(phase, st) && st.StartName?
    ensures SpanMoves(phase, st, t, TagStep(enc, st, t, ch))
  {
    hide IsNmStrt, IsNameChar, TagStep;
    NameClasses(enc, t, ch);
    StartNameStep(enc, st.hadColon, t, ch);
  }

  lemma StartNameStep(enc: Encoding, hadColon: bool, t: BT, ch: Octets)
    ensures TagStep(enc, StartName(hadColon), t, ch) ==
            if IsNameChar(enc, t, ch) then Go(StartName(hadColon))
            else if t == Colon then if hadColon then Fail else Go(StartColon)
            else if IsBlank(t) then Go(StartSpace)
            else if t == Gt then Done(StartTagNoAtts)
            else if t == Sol then Go(Slash(EmptyElementNoAtts)) else Fail
  {
    hide IsNameChar;
  }

  lemma AttNamePhase(enc: Encoding, phase: Phase, st: State, t: BT, ch: Octets)
    requires Stands(phase, st) && st.AttName?
    ensures PhaseMoves(phase, st, t, TagStep(enc, st, t, ch))
  {
    hide IsNmStrt, IsNameChar, TagStep, Stands, NextPhase, StartsName;
    NameClasses(enc, t, ch);
    AttNameStep(enc, st.hadColon, t, ch);
    PhaseOf(phase, st);
    OutsideStands(st.hadColon);
    NextOutside(t);
  }

  lemma AttNameSpans(enc: Encoding, phase: Phase, st: State, t: BT, ch: Octets)
    requires Stands(phase, st) && st.AttName?
    ensures SpanMoves(phase, st, t, TagStep(enc, st, t, ch))
  {
    hide IsNmStrt, IsNameChar, TagStep;
    NameClasses(enc, t, ch);
    AttNameStep(enc, st.hadColon, t, ch);
  }

  lemma AttNameStep(enc: Encoding, hadColon: bool, t: BT, ch: Octets)
    ensures TagStep(enc, AttName(hadColon), t, ch) ==
            if IsNameChar(enc, t, ch) then Go(AttName(hadColon))
            else if t == Colon then if hadColon then Fail else Go(AttColon)
            else if IsBlank(t) then Go(AttSpace)
            else if t == Equals then Go(AttEquals) else Fail
  {
    hide IsNameChar;
  }

  lemma AfterColonPhase(enc: Encoding, phase: Phase, st: State, t: BT, ch: Octets)
    requires Stands(phase, st) && (st.StartColon? || st.AttColon?)
    ensures PhaseMoves(phase, st, t, TagStep(enc, st, t, ch))
  {
    hide IsNmStrt, IsNameChar;
    NameClasses(enc, t, ch);
  }

  lemma AfterColonSpans(enc: Encoding, phase: Phase, st: State, t: BT, ch: Octets)
    requires Stands(phase, st) && (st.StartColon? || st.AttColon?)
    ensures SpanMoves(phase, st, t, TagStep(enc, st, t, ch))
  {
    hide IsNmStrt, IsNameChar;
    NameClasses(enc, t, ch);
  }

  lemma BetweenNamesPhase(enc: Encoding, phase: Phase, st: State, t: BT, ch: Octets)
    requires Stands(phase, st) && (st.StartSpace? || st.BetweenAtts?)
    ensures PhaseMoves(phase, st, t, TagStep(enc, st, t, ch))
  {
    hide IsNmStrt, IsNameChar, TagStep, Stands, NextPhase, StartsName;
    NameClasses(enc, t, ch);
    BetweenNamesStep(enc, t, ch);
    PhaseOf(phase, st);
    OutsideStands(false);
    NextOutside(t);
  }

  lemma BetweenNamesSpans(enc: Encoding, phase: Phase, st: State, t: BT, ch: Octets)
    requires Stands(phase, st) && (st.StartSpace? || st.BetweenAtts?)
    ensures SpanMoves(phase, st, t, TagStep(enc, st, t, ch))
  {
    hide IsNmStrt, IsNameChar, TagStep;
    NameClasses(enc, t, ch);
    BetweenNamesStep(enc, t, ch);
  }

  lemma BetweenNamesStep(enc: Encoding, t: BT, ch: Octets)
    ensures TagStep(enc, StartSpace, t, ch) ==
            if IsNmStrt(enc, t, ch) then Go(AttName(false))
            else if IsBlank(t) then Go(StartSpace)
            else if t == Gt then Done(StartTagNoAtts)
            else if t == Sol then Go(Slash(EmptyElementNoAtts)) else Fail
    ensures TagStep(enc, BetweenAtts, t, ch) ==
            if IsNmStrt(enc, t, ch) then Go(AttName(false))
            else if IsBlank(t) then Go(BetweenAtts)
            else if t == Gt then Done(StartTagWithAtts)
            else if t == Sol then Go(Slash(EmptyElementWithAtts)) else Fail
  {
    hide IsNmStrt;
  }

  lemma AfterQuotePhase(enc: Encoding, phase: Phase, st: State, t: BT, ch: Octets)
    requires Stands(phase, st) && (st.AfterValue?)
    ensures PhaseMoves(phase, st, t, TagStep(enc, st, t, ch))
  {
    hide TagStep;
    AfterQuoteStep(enc, t, ch);
  }

  lemma AfterQuoteSpans(enc: Encoding, phase: Phase, st: State, t: BT, ch: Octets)
    requires Stands(phase, st) && (st.AfterValue?)
    ensures SpanMoves(phase, st, t, TagStep(enc, st, t, ch))
  {
    hide TagStep;
    AfterQuoteStep(enc, t, ch);
  }

  lemma AfterQuoteStep(enc: Encoding, t: BT, ch: Octets)
    ensures TagStep(enc, AfterValue, t, ch) ==
            if IsBlank(t) then Go(BetweenAtts)
            else if t == Sol then Go(Slash(EmptyElementWithAtts))
            else if t == Gt then Done(StartTagWithAtts) else Fail
  {
  }

  lemma AttSpacePhase(enc: Encoding, phase: Phase, st: State, t: BT, ch: Octets)
    requires Stands(phase, st) && st.AttSpace?
    ensures PhaseMoves(phase, st, t, TagStep(enc, st, t, ch))
  {
    hide TagStep;
    AttSpaceStep(enc, t, ch);
  }

  lemma AttSpaceSpans(enc: Encoding, phase: Phase, st: State, t: BT, ch: Octets)
    requires Stands(phase, st) && st.AttSpace?
    ensures SpanMoves(phase, st, t, TagStep(enc, st, t, ch))
  {
    hide TagStep;
    AttSpaceStep(enc, t, ch);
  }

  lemma AttSpaceStep(enc: Encoding, t: BT, ch: Octets)
    ensures TagStep(enc, AttSpace, t, ch) ==
            if t == Equals then Go(AttEquals) else if IsBlank(t) then Go(AttSpace) else Fail
  {
  }

  lemma AttEqualsPhase(enc: Encoding, phase: Phase, st: State, t: BT, ch: Octets)
    requires Stands(phase, st) && st.AttEquals?
    ensures PhaseMoves(phase, st, t, TagStep(enc, st, t, ch))
  {
    hide TagStep;
    AttEqualsStep(enc, t, ch);
  }

  lemma AttEqualsSpans(enc: Encoding, phase: Phase, st: State, t: BT, ch: Octets)
    requires Stands(phase, st) && st.AttEquals?
    ensures SpanMoves(phase, st, t, TagStep(enc, st, t, ch))
  {
    hide TagStep;
    AttEqualsStep(enc, t, ch);
  }

  lemma AttEqualsStep(enc: Encoding, t: BT, ch: Octets)
    ensures TagStep(enc, AttEquals, t, ch) ==
            if t == Quot || t == Apos then Go(Value(t)) else if IsBlank(t) then Go(AttEquals) else Fail
  {
  }

  lemma QuotedStands(phase: Phase, st: State, t: BT)
    requires Stands(phase, st) && st.Value?
    ensures phase == Quoted(st.quote)
    ensures var next := NextPhase(phase, t);
            && Stands(next, if t == st.quote then AfterValue else st)
            && (t == Amp ==> Stands(next, RefOpen(InValue(st.quote))))
  {
    hide IsBlank, StartsName;
  }

  lemma InsideValuePhase(enc: Encoding, phase: Phase, st: State, t: BT, ch: Octets)
    requires Stands(phase, st) && (st.Value?)
    ensures PhaseMoves(phase, st, t, TagStep(enc, st, t, ch))
  {
    hide TagStep, IsBlank, StartsName, Refused, Stands, NextPhase;
    InsideValueStep(enc, st.quote, t, ch);
    QuotedStands(phase, st, t);
  }

  lemma InsideValueSpans(enc: Encoding, phase: Phase, st: State, t: BT, ch: Octets)
    requires Stands(phase, st) && (st.Value?)
    ensures SpanMoves(phase, st, t, TagStep(enc, st, t, ch))
  {
    hide Refused, TagStep, IsBlank, StartsName, Stands, NextPhase;
    InsideValueStep(enc, st.quote, t, ch);
    QuotedStands(phase, st, t);
  }

  lemma InsideValueStep(enc: Encoding, quote: BT, t: BT, ch: Octets)
    ensures TagStep(enc, Value(quote), t, ch) ==
            if t == quote then Go(AfterValue)
            else if Refused(t, ch) || t == Lt then Fail
            else if t == Amp then Go(RefOpen(InValue(quote))) else Go(Value(quote))
  {
    hide Refused;
  }

  lemma RefNamePhase(enc: Encoding, phase: Phase, st: State, t: BT, ch: Octets)
    requires Stands(phase, st) && (st.RefOpen? || st.RefName?) && (ch == [0x78] ==> t == NmStrt)
    ensures PhaseMoves(phase, st, t, RefStep(enc, st, t, ch))
  {
    hide IsNmStrt, IsNameChar, RefStep, Stands, NextPhase, StartsName, IsBlank;
    NameClasses(enc, t, ch);
    RefNameStep(enc, st.place, t, ch);
    RefStands(phase, st, t);
    QuotedValue(st.place.quote);
    var m := RefStep(enc, st, t, ch);
    if m.Go? && IsReference(m.to) {
      QuotedRef(st.place.quote, m.to);
    }
  }

  lemma RefNameSpans(enc: Encoding, phase: Phase, st: State, t: BT, ch: Octets)
    requires Stands(phase, st) && (st.RefOpen? || st.RefName?) && (ch == [0x78] ==> t == NmStrt)
    ensures SpanMoves(phase, st, t, RefStep(enc, st, t, ch))
  {
    hide IsNmStrt, IsNameChar, RefStep, IsBlank, StartsName;
    NameClasses(enc, t, ch);
    RefNameStep(enc, st.place, t, ch);
  }

  lemma RefNameStep(enc: Encoding, place: Place, t: BT, ch: Octets)
    ensures RefStep(enc, RefOpen(place), t, ch) ==
            if IsNmStrt(enc, t, ch) then Go(RefName(place)) else if t == Num then Go(CharRefOpen(place)) else Fail
    ensures RefStep(enc, RefName(place), t, ch) ==
            if IsNameChar(enc, t, ch) then Go(RefName(place))
            else if t == Semi then EndOfRef(place, EntityRef) else Fail
  {
    hide IsNmStrt, IsNameChar;
  }

  lemma CharRefPhase(enc: Encoding, phase: Phase, st: State, t: BT, ch: Octets)
    requires Stands(phase, st) && (st.CharRefOpen? || st.Decimal? || st.HexOpen? || st.Hexadecimal?) && (ch == [0x78] ==> t == NmStrt)
    ensures PhaseMoves(phase, st, t, RefStep(enc, st, t, ch))
  {
    hide RefStep, Stands, NextPhase, StartsName, IsBlank;
    CharRefStep(enc, st.place, t, ch);
    RefStands(phase, st, t);
    QuotedValue(st.place.quote);
    var m := RefStep(enc, st, t, ch);
    if m.Go? && IsReference(m.to) {
      QuotedRef(st.place.quote, m.to);
    }
  }

  lemma CharRefSpans(enc: Encoding, phase: Phase, st: State, t: BT, ch: Octets)
    requires Stands(phase, st) && (st.CharRefOpen? || st.Decimal? || st.HexOpen? || st.Hexadecimal?) && (ch == [0x78] ==> t == NmStrt)
    ensures SpanMoves(phase, st, t, RefStep(enc, st, t, ch))
  {
    hide RefStep, IsBlank, StartsName;
    CharRefStep(enc, st.place, t, ch);
  }

  lemma CharRefStep(enc: Encoding, place: Place, t: BT, ch: Octets)
    ensures RefStep(enc, CharRefOpen(place), t, ch) ==
            if ch == [0x78] then Go(HexOpen(place)) else if t == Digit then Go(Decimal(place)) else Fail
    ensures RefStep(enc, HexOpen(place), t, ch) ==
            if t == Digit || t == Hex then Go(Hexadecimal(place)) else Fail
    ensures RefStep(enc, Decimal(place), t, ch) ==
            if t == Digit then Go(Decimal(place)) else if t == Semi then EndOfRef(place, CharRef) else Fail
    ensures RefStep(enc, Hexadecimal(place), t, ch) ==
            if t == Digit || t == Hex then Go(Hexadecimal(place))
            else if t == Semi then EndOfRef(place, CharRef) else Fail
  {
  }

  lemma FirstStep(enc: Encoding, t: BT, ch: Octets)
    ensures var m := Step(enc, AfterLt, t, ch);
            !m.Done? && (m.Go? ==> OffTag(m.to) || (m.to == StartName(false) && StartsName(t)))
  {
  }

  lemma FirstMoves(enc: Encoding, phase: Phase, t: BT, ch: Octets)
    requires Stands(phase, AfterLt)
    requires Step(enc, AfterLt, t, ch).Go? ==> !OffTag(Step(enc, AfterLt, t, ch).to)
    ensures MovesWith(phase, AfterLt, t, Step(enc, AfterLt, t, ch))
  {
    hide Step;
    FirstStep(enc, t, ch);
  }

  /** getAtts moves with the automaton. */
  lemma StandsStep(enc: Encoding, phase: Phase, st: State, t: BT, ch: Octets)
    requires Stands(phase, st) && (ch == [0x78] ==> t == NmStrt)
    requires Step(enc, st, t, ch).Go? ==> !OffTag(Step(enc, st, t, ch).to)
    ensures MovesWith(phase, st, t, Step(enc, st, t, ch))
  {
    hide TagStep, RefStep, IsNmStrt, PhaseMoves, SpanMoves;
    match st
    case AfterLt => FirstMoves(enc, phase, t, ch);
    case RefOpen(_) =>
      RefNamePhase(enc, phase, st, t, ch);
      RefNameSpans(enc, phase, st, t, ch);
    case RefName(_) =>
      RefNamePhase(enc, phase, st, t, ch);
      RefNameSpans(enc, phase, st, t, ch);
    case CharRefOpen(_) =>
      CharRefPhase(enc, phase, st, t, ch);
      CharRefSpans(enc, phase, st, t, ch);
    case Decimal(_) =>
      CharRefPhase(enc, phase, st, t, ch);
      CharRefSpans(enc, phase, st, t, ch);
    case HexOpen(_) =>
      CharRefPhase(enc, phase, st, t, ch);
      CharRefSpans(enc, phase, st, t, ch);
    case Hexadecimal(_) =>
      CharRefPhase(enc, phase, st, t, ch);
      CharRefSpans(enc, phase, st, t, ch);
    case StartName(_) =>
      StartNamePhase(enc, phase, st, t, ch);
      StartNameSpans(enc, phase, st, t, ch);
    case AttName(_) =>
      AttNamePhase(enc, phase, st, t, ch);
      AttNameSpans(enc, phase, st, t, ch);
    case StartColon =>
      AfterColonPhase(enc, phase, st, t, ch);
      AfterColonSpans(enc, phase, st, t, ch);
    case AttColon =>
      AfterColonPhase(enc, phase, st, t, ch);
      AfterColonSpans(enc, phase, st, t, ch);
    case StartSpace =>
      BetweenNamesPhase(enc, phase, st, t, ch);
      BetweenNamesSpans(enc, phase, st, t, ch);
    case BetweenAtts =>
      BetweenNamesPhase(enc, phase, st, t, ch);
      BetweenNamesSpans(enc, phase, st, t, ch);
    case AfterValue =>
      AfterQuotePhase(enc, phase, st, t, ch);
      AfterQuoteSpans(enc, phase, st, t, ch);
    case AttSpace =>
      AttSpacePhase(enc, phase, st, t, ch);
      AttSpaceSpans(enc, phase, st, t, ch);
    case AttEquals =>
      AttEqualsPhase(enc, phase, st, t, ch);
      AttEqualsSpans(enc, phase, st, t, ch);
    case Value(_) =>
      InsideValuePhase(enc, phase, st, t, ch);
      InsideValueSpans(enc, phase, st, t, ch);
    case _ =>
  }

  /** Every character is stepped over whole. */
  lemma WholeStep(enc: Encoding, phase: Phase, st: State, t: BT, ch: Octets)
    requires Stands(phase, st) && IsLead(t) && !TakesLeads(st) && |ch| == 1 && ch[0] >= 0xC0
    ensures Step(enc, st, t, ch).Fail?
  {
  }

  // ----- values that need no normalization

  /** No reference and no line end; spaces only, each alone and between other characters. */
  ghost predicate IsNormal(enc: Encoding, v: Octets) {
    forall j :: 0 <= j < |v| ==> NormalAt(enc, v, j)
  }

  predicate NormalAt(enc: Encoding, v: Octets, j: nat)
    requires j < |v|
  {
    var t := ByteType(enc, v[j]);
    && t != Amp && t != Cr && t != Lf
    && (t == Space ==> 0 < j && v[j] == SPACE && j + 1 < |v| && v[j + 1] != SPACE)
  }

  /** What has been seen of this when the scan has passed a byte; the end of the value is not known yet. */
  ghost predicate Fine(enc: Encoding, s: Octets, value: nat, j: nat)
    requires j < |s|
  {
    var t := ByteType(enc, s[j]);
    && t != Amp && t != Cr && t != Lf
    && (t == Space ==> j != value && s[j] == SPACE && (j + 1 < |s| ==> s[j + 1] != SPACE))
  }

  ghost predicate AllFine(enc: Encoding, s: Octets, value: nat, ptr: nat)
    requires ptr <= |s|
  {
    forall j :: value <= j < ptr ==> Fine(enc, s, value, j)
  }

  /** The last byte passed is a space and a quote follows. */
  ghost predicate SpaceLast(enc: Encoding, s: Octets, value: nat, ptr: nat, quote: BT) {
    value < ptr < |s| && ByteType(enc, s[ptr - 1]) == Space && ByteType(enc, s[ptr]) == quote
  }

  ghost predicate Clean(enc: Encoding, s: Octets, value: nat, ptr: nat)
    requires ptr <= |s|
  {
    forall j :: value <= j < ptr ==> CleanAt(enc, s, j, ptr)
  }

  ghost predicate CleanAt(enc: Encoding, s: Octets, j: nat, ptr: nat)
    requires j < ptr <= |s|
  {
    var n := LeadSize(s[j]);
    && ByteType(enc, s[j]) != Lt
    && j + n <= ptr && forall k :: j < k < j + n ==> 0x80 <= s[k] < 0xC0
  }

  lemma CloseFlag(enc: Encoding, s: Octets, value: nat, end: nat, quote: BT)
    requires value <= end < |s| && ByteType(enc, s[end]) == quote && (quote == Quot || quote == Apos)
    ensures AllFine(enc, s, value, end) && !SpaceLast(enc, s, value, end, quote) <==>
            IsNormal(enc, s[value..end])
  {
    hide ByteType;
    var v := s[value..end];
    SizeOfLead(enc, s[end]);
    if AllFine(enc, s, value, end) && !SpaceLast(enc, s, value, end, quote) {
      forall j | 0 <= j < |v| ensures NormalAt(enc, v, j) {
        assert Fine(enc, s, value, value + j);
      }
    }
    if IsNormal(enc, v) {
      forall j | value <= j < end ensures Fine(enc, s, value, j) {
        assert NormalAt(enc, v, j - value);
      }
      if value < end {
        assert NormalAt(enc, v, |v| - 1);
      }
    }
  }

  lemma CleanIsUncut(enc: Encoding, s: Octets, value: nat, end: nat)
    requires value <= end <= |s| && Clean(enc, s, value, end)
    ensures Uncut(s[value..end])
    ensures forall j :: 0 <= j < end - value ==> ByteType(enc, s[value..end][j]) != Lt
  {
    hide ByteType, LeadSize;
    var v := s[value..end];
    forall j | 0 <= j < |v|
      ensures UncutAt(v, j) && ByteType(enc, v[j]) != Lt
    {
      assert CleanAt(enc, s, value + j, end);
    }
  }

  // ----- getAtts

  datatype Attribute = Attribute(name: nat, valuePtr: nat, valueEnd: nat, normalized: bool)

  /** What an attribute must hold when its value is complete. */
  ghost predicate Stored(enc: Encoding, s: Octets, att: Attribute, span: Span) {
    && span.value <= span.end <= |s|
    && att == Attribute(span.name, span.value, span.end, IsNormal(enc, s[span.value..span.end]))
    && (att.normalized ==> Copyable(enc, s[span.value..span.end]))
  }

  /** What every value holds that has no references: whole characters, and no "<". */
  ghost predicate Copyable(enc: Encoding, v: Octets) {
    Uncut(v) && forall j :: 0 <= j < |v| ==> ByteType(enc, v[j]) != Lt
  }

  /** What an attribute holds while it is read. */
  ghost predicate Current(enc: Encoding, s: Octets, att: Attribute, st: State, phase: Phase, name: nat, value: nat,
                          ptr: nat)
    requires ptr <= |s|
  {
    HasName(st) ==>
      && att.name == name
      && (!phase.Quoted? ==> att.normalized)
      && (phase.Quoted? ==>
            && att.valuePtr == value <= ptr
            && att.normalized == (AllFine(enc, s, value, ptr) && !SpaceLast(enc, s, value, ptr, phase.open))
            && (IsReference(st) ==> !AllFine(enc, s, value, ptr))
            && (AllFine(enc, s, value, ptr) ==> Clean(enc, s, value, ptr)))
  }

  /** The changes that one character makes to the attribute being read. */
  function Touched(enc: Encoding, s: Octets, ptr: nat, phase: Phase, att: Attribute): Attribute
    requires ptr < |s|
  {
    var t := ByteType(enc, s[ptr]);
    if StartsName(t) then Named(ptr, phase, att)
    else if t == Quot || t == Apos then AtQuote(ptr, phase, t, att)
    else if t == Amp then att.(normalized := false)
    else if t == Space && phase.Quoted? && SpoilsAt(enc, s, ptr, phase.open, att) then att.(normalized := false)
    else if (t == Cr || t == Lf) && phase.Quoted? then att.(normalized := false)
    else att
  }

  function Named(ptr: nat, phase: Phase, att: Attribute): Attribute {
    if phase.Outside? then att.(name := ptr, normalized := true) else att
  }

  function AtQuote(ptr: nat, phase: Phase, quote: BT, att: Attribute): Attribute {
    if !phase.Quoted? then att.(valuePtr := ptr + 1)
    else if phase.open == quote then att.(valueEnd := ptr) else att
  }

  predicate SpoilsAt(enc: Encoding, s: Octets, ptr: nat, open: BT, att: Attribute)
    requires ptr < |s|
  {
    && att.normalized
    && (ptr == att.valuePtr || s[ptr] != SPACE
        || (ptr + 1 < |s| && (s[ptr + 1] == SPACE || ByteType(enc, s[ptr + 1]) == open)))
  }

  // ----- one character

  /** The character from ptr to next. */
  ghost predicate CharAt(enc: Encoding, s: Octets, ptr: nat, next: nat) {
    ptr < next <= |s| && next == ptr + CharSize(ByteType(enc, s[ptr]))
  }

  ghost predicate Trails(s: Octets, i: nat, j: nat)
    requires j <= |s|
  {
    forall k :: i <= k < j ==> 0x80 <= s[k] < 0xC0
  }

  lemma TrailType(enc: Encoding, b: byte)
    requires 0x80 <= b < 0xC0
    ensures ByteType(enc, b) == Trail && LeadSize(b) == 1
  {
  }

  /** A character that is not refused has good trailing bytes. */
  lemma GoodChar(enc: Encoding, s: Octets, ptr: nat, next: nat)
    requires CharAt(enc, s, ptr, next) && !Refused(ByteType(enc, s[ptr]), s[ptr..next])
    ensures Trails(s, ptr + 1, next)
  {
    hide ByteType;
    var ch := s[ptr..next];
    assert forall k :: 0 <= k < |ch| ==> ch[k] == s[ptr + k];
    assert InvalidChar(ch) || (forall k :: 0 < k < |ch| ==> 0x80 <= ch[k] < 0xC0);
    forall k | ptr + 1 <= k < next ensures 0x80 <= s[k] < 0xC0 {
      assert ch[k - ptr] == s[k];
    }
  }

  lemma FineGrows(enc: Encoding, s: Octets, value: nat, ptr: nat, next: nat)
    requires value <= ptr < next <= |s| && Trails(s, ptr + 1, next)
    ensures AllFine(enc, s, value, next) <==> AllFine(enc, s, value, ptr) && Fine(enc, s, value, ptr)
  {
  }

  lemma CleanGrows(enc: Encoding, s: Octets, value: nat, ptr: nat, next: nat)
    requires value <= ptr && CharAt(enc, s, ptr, next) && Trails(s, ptr + 1, next)
    requires Clean(enc, s, value, ptr) && ByteType(enc, s[ptr]) != Lt
    ensures Clean(enc, s, value, next)
  {
    hide ByteType, LeadSize, CharSize;
    SizeOfLead(enc, s[ptr]);
    forall j | value <= j < next ensures CleanAt(enc, s, j, next) {
      if j < ptr {
        assert CleanAt(enc, s, j, ptr);
      } else if j > ptr {
        TrailType(enc, s[j]);
      }
    }
  }

  /** A character inside a value. */
  lemma PassChar(enc: Encoding, s: Octets, att: Attribute, st: State, to: State, quote: BT, value: nat, ptr: nat,
                 next: nat)
    requires CharAt(enc, s, ptr, next) && value <= ptr
    requires Current(enc, s, att, st, Quoted(quote), att.name, value, ptr) && HasName(st)
    requires (quote == Quot || quote == Apos) && ByteType(enc, s[ptr]) != quote
    requires IsReference(st) || (!Refused(ByteType(enc, s[ptr]), s[ptr..next]) && ByteType(enc, s[ptr]) != Lt)
    requires IsReference(to) && !IsReference(st) ==> ByteType(enc, s[ptr]) == Amp
    ensures Current(enc, s, Touched(enc, s, ptr, Quoted(quote), att), to, Quoted(quote), att.name, value, next)
  {
    hide ByteType, Refused, CharSize, AllFine, Clean;
    var t := ByteType(enc, s[ptr]);
    if IsReference(st) {
      NotFineGrows(enc, s, value, ptr, next);
    } else {
      GoodChar(enc, s, ptr, next);
      FineGrows(enc, s, value, ptr, next);
      if AllFine(enc, s, value, ptr) {
        CleanGrows(enc, s, value, ptr, next);
      }
      SingleByte(enc, s, ptr, next);
    }
  }

  lemma NotFineGrows(enc: Encoding, s: Octets, value: nat, ptr: nat, next: nat)
    requires ptr <= next <= |s| && !AllFine(enc, s, value, ptr)
    ensures !AllFine(enc, s, value, next)
  {
  }

  /** The last byte of a character is a space only if it is the whole character. */
  lemma SingleByte(enc: Encoding, s: Octets, ptr: nat, next: nat)
    requires CharAt(enc, s, ptr, next) && Trails(s, ptr + 1, next)
    ensures ByteType(enc, s[next - 1]) == Space <==> ByteType(enc, s[ptr]) == Space
    ensures ByteType(enc, s[ptr]) == Space ==> next == ptr + 1
  {
    hide ByteType;
    if next - 1 > ptr {
      TrailType(enc, s[next - 1]);
    }
  }

  lemma NothingSeen(enc: Encoding, s: Octets, i: nat, quote: BT)
    requires i <= |s|
    ensures AllFine(enc, s, i, i) && Clean(enc, s, i, i) && !SpaceLast(enc, s, i, i, quote)
  {
  }

  lemma ValueStep(enc: Encoding, st: State, t: BT, ch: Octets)
    requires st.Value? && Step(enc, st, t, ch).Go? && t != st.quote
    ensures !Refused(t, ch) && t != Lt
  {
  }

  /** The premises of one step. */
  ghost predicate StepOf(enc: Encoding, s: Octets, st: State, to: State, phase: Phase, ptr: nat, next: nat) {
    && CharAt(enc, s, ptr, next) && Stands(phase, st) && !Leaves(phase, ByteType(enc, s[ptr]))
    && MovesWith(phase, st, ByteType(enc, s[ptr]), Go(to))
    && Step(enc, st, ByteType(enc, s[ptr]), s[ptr..next]) == Go(to)
  }

  lemma CloseStep(enc: Encoding, s: Octets, att: Attribute, st: State, to: State, phase: Phase, name: nat,
                  value: nat, ptr: nat, next: nat)
    requires StepOf(enc, s, st, to, phase, ptr, next) && EndsValue(st, to) && value <= ptr
    requires Current(enc, s, att, st, phase, name, value, ptr)
    ensures Stored(enc, s, Touched(enc, s, ptr, phase, att), Span(name, value, ptr))
  {
    hide ByteType, Step, AllFine, Clean, SpaceLast, IsNormal;
    var t := ByteType(enc, s[ptr]);
    CloseFlag(enc, s, value, ptr, t);
    if AllFine(enc, s, value, ptr) {
      CleanIsUncut(enc, s, value, ptr);
    }
  }

  lemma TouchedOutside(enc: Encoding, s: Octets, ptr: nat, phase: Phase, att: Attribute)
    requires ptr < |s| && !phase.Quoted? && ByteType(enc, s[ptr]) !in {Quot, Apos, Amp}
    ensures Touched(enc, s, ptr, phase, att) ==
            if phase.Outside? && StartsName(ByteType(enc, s[ptr])) then att.(name := ptr, normalized := true) else att
  {
  }

  lemma NameStep(enc: Encoding, s: Octets, att: Attribute, st: State, to: State, phase: Phase, name: nat,
                 value: nat, ptr: nat, next: nat)
    requires StepOf(enc, s, st, to, phase, ptr, next) && !phase.Quoted?
    requires ByteType(enc, s[ptr]) != Quot && ByteType(enc, s[ptr]) != Apos
    requires Current(enc, s, att, st, phase, name, value, ptr)
    ensures Current(enc, s, Touched(enc, s, ptr, phase, att), to, NextPhase(phase, ByteType(enc, s[ptr])),
                    if BeginsName(st, to) then ptr else name, value, next)
  {
    hide ByteType, Step, AllFine, Clean, SpaceLast, Stands, CharSize, IsReference, Touched;
    NeverBoth(phase, st, to, ByteType(enc, s[ptr]));
    TouchedOutside(enc, s, ptr, phase, att);
  }

  lemma OpenStep(enc: Encoding, s: Octets, att: Attribute, st: State, to: State, phase: Phase, name: nat,
                 value: nat, ptr: nat, next: nat)
    requires StepOf(enc, s, st, to, phase, ptr, next) && !phase.Quoted?
    requires ByteType(enc, s[ptr]) == Quot || ByteType(enc, s[ptr]) == Apos
    requires Current(enc, s, att, st, phase, name, value, ptr)
    ensures Current(enc, s, Touched(enc, s, ptr, phase, att), to, NextPhase(phase, ByteType(enc, s[ptr])),
                    name, next, next)
  {
    hide ByteType, Step, AllFine, Clean, SpaceLast, Stands, CharSize;
    var t := ByteType(enc, s[ptr]);
    NothingSeen(enc, s, next, t);
    QuoteIsOneByte(t);
    NeverBoth(phase, st, to, t);
  }

  lemma QuoteIsOneByte(t: BT)
    requires t == Quot || t == Apos
    ensures CharSize(t) == 1
  {
  }

  lemma NeverBoth(phase: Phase, st: State, to: State, t: BT)
    requires Stands(phase, st) && Stands(NextPhase(phase, t), to)
    ensures phase.Quoted? ==> HasName(st) && !BeginsName(st, to) && !BeginsValue(st, to)
    ensures IsReference(to) ==> NextPhase(phase, t).Quoted?
    ensures BeginsValue(st, to) ==> HasName(st)
    ensures EndsValue(st, to) ==> !HasName(to)
  {
  }

  lemma InsideStep(enc: Encoding, s: Octets, att: Attribute, st: State, to: State, phase: Phase, name: nat,
                   value: nat, ptr: nat, next: nat)
    requires StepOf(enc, s, st, to, phase, ptr, next) && phase.Quoted? && !EndsValue(st, to) && value <= ptr
    requires Current(enc, s, att, st, phase, name, value, ptr)
    ensures Current(enc, s, Touched(enc, s, ptr, phase, att), to, NextPhase(phase, ByteType(enc, s[ptr])),
                    name, value, next)
  {
    hide ByteType, Step, AllFine, Clean, SpaceLast, Touched, Refused;
    var t := ByteType(enc, s[ptr]);
    if st.Value? {
      ValueStep(enc, st, t, s[ptr..next]);
    }
    NeverBoth(phase, st, to, t);
    PassChar(enc, s, att, st, to, phase.open, value, ptr, next);
  }

  /** What a character that leads to another state does to the current attribute. */
  lemma TouchedStep(enc: Encoding, s: Octets, att: Attribute, st: State, to: State, phase: Phase, name: nat,
                    value: nat, ptr: nat, next: nat)
    requires StepOf(enc, s, st, to, phase, ptr, next) && (phase.Quoted? ==> value <= ptr)
    requires Current(enc, s, att, st, phase, name, value, ptr)
    ensures var now := Touched(enc, s, ptr, phase, att);
            && (EndsValue(st, to) ==> Stored(enc, s, now, Span(name, value, ptr)))
            && Current(enc, s, now, to, NextPhase(phase, ByteType(enc, s[ptr])),
                       if BeginsName(st, to) then ptr else name, if BeginsValue(st, to) then next else value, next)
  {
    hide ByteType, Step, AllFine, Clean, SpaceLast, IsNormal, Touched, Stored, CharSize;
    NeverBoth(phase, st, to, ByteType(enc, s[ptr]));
    if EndsValue(st, to) {
      CloseStep(enc, s, att, st, to, phase, name, value, ptr, next);
    } else if phase.Quoted? {
      InsideStep(enc, s, att, st, to, phase, name, value, ptr, next);
    } else if ByteType(enc, s[ptr]) == Quot || ByteType(enc, s[ptr]) == Apos {
      OpenStep(enc, s, att, st, to, phase, name, value, ptr, next);
    } else {
      NameStep(enc, s, att, st, to, phase, name, value, ptr, next);
    }
  }

  /** A start tag or an empty-element tag begins here. */
  ghost predicate IsStartTag(enc: Encoding, s: Octets, start: nat) {
    start < |s| && Run(enc, AfterLt, s, start + 1).Token? && IsTag(Run(enc, AfterLt, s, start + 1).tok)
  }

  ghost function Attributes(enc: Encoding, s: Octets, start: nat): seq<Span>
    requires start < |s|
  {
    Spans(enc, AfterLt, s, start + 1, 0, 0)
  }

  lemma ReadOfTag(enc: Encoding, s: Octets, st: State, phase: Phase, ptr: nat) returns (to: State, next: nat)
    requires ptr < |s| && Stands(phase, st) && !Leaves(phase, ByteType(enc, s[ptr]))
    requires Run(enc, st, s, ptr).Token? && IsTag(Run(enc, st, s, ptr).tok)
    ensures next <= |s| && ReadAt(enc, st, s, ptr) == ContentAutomaton.Whole(Go(to), next)
    ensures StepOf(enc, s, st, to, phase, ptr, next) && Run(enc, to, s, next) == Run(enc, st, s, ptr)
  {
    hide ByteType, Step, Stands, MovesWith, OffTag, CharSize, TakesLeads, Leaves;
    var r := ReadAt(enc, st, s, ptr);
    var t := ByteType(enc, s[ptr]);
    var ch := s[ptr..r.next];
    XIsNameStart(enc, s[ptr]);
    if OffTagMove(r.move) {
      OffTagRun(enc, r.move.to, s, r.next);
    }
    StandsStep(enc, phase, st, t, ch);
    NotDone(phase, st, t, r.move);
    to, next := r.move.to, r.next;
    if !TakesLeads(st) {
      LeadOrOne(enc, s[ptr]);
      if CharSize(t) > 1 {
        WholeStep(enc, phase, st, t, ch);
      }
    }
  }

  ghost predicate OffTagMove(m: Move) {
    m.Go? && OffTag(m.to)
  }

  lemma XIsNameStart(enc: Encoding, b: byte)
    ensures b == 0x78 ==> ByteType(enc, b) == NmStrt
  {
  }

  lemma LeadOrOne(enc: Encoding, b: byte)
    ensures CharSize(ByteType(enc, b)) > 1 ==> b >= 0xC0 && IsLead(ByteType(enc, b))
  {
  }

  lemma NotDone(phase: Phase, st: State, t: BT, m: Move)
    requires MovesWith(phase, st, t, m) && !Leaves(phase, t)
    ensures !m.Done?
  {
  }

  lemma NoMoreSpans(enc: Encoding, s: Octets, st: State, phase: Phase, ptr: nat, name: nat, value: nat)
    requires ptr < |s| && Stands(phase, st) && Leaves(phase, ByteType(enc, s[ptr]))
    requires Run(enc, st, s, ptr).Token? && IsTag(Run(enc, st, s, ptr).tok)
    ensures Spans(enc, st, s, ptr, name, value) == []
  {
    hide ByteType, Step, Stands, MovesWith, OffTag, UnitSize;
    var r := ReadAt(enc, st, s, ptr);
    var t := ByteType(enc, s[ptr]);
    XIsNameStart(enc, s[ptr]);
    if OffTagMove(r.move) {
      OffTagRun(enc, r.move.to, s, r.next);
    }
    StandsStep(enc, phase, st, t, s[ptr..r.next]);
    LeavesBySlash(enc, phase, st, t, r.move, s, r.next);
  }

  lemma LeavesBySlash(enc: Encoding, phase: Phase, st: State, t: BT, m: Move, s: Octets, next: nat)
    requires MovesWith(phase, st, t, m) && Leaves(phase, t) && next <= |s|
    ensures m.Go? ==> m.to.Slash? && Spans(enc, m.to, s, next, 0, 0) == []
    ensures forall name, value :: m.Go? ==> Spans(enc, m.to, s, next, name, value) == []
  {
    hide ByteType;
  }

  /** One character of the tag: the state and the attribute in progress change. */
  method OnCharacter(enc: Encoding, s: Octets, ptr: nat, before: Phase, attsMax: nat, atts: array<Attribute>,
                     count: nat) returns (phase: Phase, nAtts: nat)
    requires ptr < |s| && attsMax <= atts.Length
    modifies atts
    ensures phase == NextPhase(before, ByteType(enc, s[ptr]))
    ensures nAtts == if before == Quoted(ByteType(enc, s[ptr])) && phase.Outside? then count + 1 else count
    ensures count < attsMax ==> atts[count] == Touched(enc, s, ptr, before, old(atts[count]))
    ensures forall k :: 0 <= k < atts.Length && (k != count || count >= attsMax) ==> atts[k] == old(atts[k])
  {
    hide ByteType, SpoilsAt, Named, AtQuote;
    phase, nAtts := before, count;
    var t := ByteType(enc, s[ptr]);
    if StartsName(t) {
      phase := OnNameStart(ptr, before, attsMax, atts, count);
    } else if t == Quot || t == Apos {
      phase, nAtts := OnQuote(ptr, t, before, attsMax, atts, count);
    } else if t == Amp {
      if count < attsMax {
        atts[count] := atts[count].(normalized := false);
      }
    } else if t == Space {
      phase := OnSpace(enc, s, ptr, before, attsMax, atts, count);
    } else if t == Cr || t == Lf {
      phase := OnLineEnd(before, attsMax, atts, count);
    }
  }

  /** START_NAME */
  method OnNameStart(ptr: nat, before: Phase, attsMax: nat, atts: array<Attribute>, count: nat) returns (phase: Phase)
    requires attsMax <= atts.Length
    modifies atts
    ensures phase == if before.Outside? then Naming else before
    ensures count < attsMax ==> atts[count] == Named(ptr, before, old(atts[count]))
    ensures forall k :: 0 <= k < atts.Length && (k != count || count >= attsMax) ==> atts[k] == old(atts[k])
  {
    phase := before;
    if phase.Outside? {
      if count < attsMax {
        atts[count] := atts[count].(name := ptr, normalized := true);
      }
      phase := Naming;
    }
  }

  method OnQuote(ptr: nat, quote: BT, before: Phase, attsMax: nat, atts: array<Attribute>, count: nat)
    returns (phase: Phase, nAtts: nat)
    requires attsMax <= atts.Length
    modifies atts
    ensures phase == if !before.Quoted? then Quoted(quote) else if before.open == quote then Outside else before
    ensures nAtts == if before == Quoted(quote) then count + 1 else count
    ensures count < attsMax ==> atts[count] == AtQuote(ptr, before, quote, old(atts[count]))
    ensures forall k :: 0 <= k < atts.Length && (k != count || count >= attsMax) ==> atts[k] == old(atts[k])
  {
    phase, nAtts := before, count;
    if !phase.Quoted? {
      if count < attsMax {
        atts[count] := atts[count].(valuePtr := ptr + 1);
      }
      phase := Quoted(quote);
    } else if phase.open == quote {
      phase := Outside;
      if count < attsMax {
        atts[count] := atts[count].(valueEnd := ptr);
      }
      nAtts := count + 1;
    }
  }

  method OnSpace(enc: Encoding, s: Octets, ptr: nat, before: Phase, attsMax: nat, atts: array<Attribute>, count: nat)
    returns (phase: Phase)
    requires ptr < |s| && attsMax <= atts.Length
    modifies atts
    ensures phase == if before.Naming? then Outside else before
    ensures count < attsMax ==>
              atts[count] == if before.Quoted? && SpoilsAt(enc, s, ptr, before.open, old(atts[count]))
                             then old(atts[count]).(normalized := false) else old(atts[count])
    ensures forall k :: 0 <= k < atts.Length && (k != count || count >= attsMax) ==> atts[k] == old(atts[k])
  {
    hide SpoilsAt;
    phase := before;
    if phase.Naming? {
      phase := Outside;
    } else if phase.Quoted? && count < attsMax && SpoilsAt(enc, s, ptr, phase.open, atts[count]) {
      atts[count] := atts[count].(normalized := false);
    }
  }

  method OnLineEnd(before: Phase, attsMax: nat, atts: array<Attribute>, count: nat) returns (phase: Phase)
    requires attsMax <= atts.Length
    modifies atts
    ensures phase == if before.Naming? then Outside else before
    ensures count < attsMax ==>
              atts[count] == if before.Quoted? then old(atts[count]).(normalized := false) else old(atts[count])
    ensures forall k :: 0 <= k < atts.Length && (k != count || count >= attsMax) ==> atts[k] == old(atts[k])
  {
    phase := before;
    if phase.Naming? {
      phase := Outside;
    } else if phase.Quoted? && count < attsMax {
      atts[count] := atts[count].(normalized := false);
    }
  }

  lemma StepFacts(enc: Encoding, s: Octets, st: State, to: State, phase: Phase, ptr: nat, next: nat, value: nat)
    requires StepOf(enc, s, st, to, phase, ptr, next) && (phase.Quoted? ==> value <= ptr)
    ensures next == ptr + CharSize(ByteType(enc, s[ptr]))
    ensures var now := NextPhase(phase, ByteType(enc, s[ptr]));
            && Stands(now, to)
            && (EndsValue(st, to) <==> phase == Quoted(ByteType(enc, s[ptr])) && now.Outside?)
            && (now.Quoted? ==> (if BeginsValue(st, to) then next else value) <= next)
  {
    hide ByteType, CharSize, Step, Stands, EndsValue, BeginsValue;
    StandsQuoted(phase, st);
  }

  lemma StandsQuoted(phase: Phase, st: State)
    requires Stands(phase, st)
    ensures phase.Quoted? ==> phase.open == Quot || phase.open == Apos
  {
  }

  lemma SpansStep(enc: Encoding, s: Octets, st: State, to: State, ptr: nat, next: nat, name: nat, value: nat)
    requires ptr < next <= |s| && ReadAt(enc, st, s, ptr) == ContentAutomaton.Whole(Go(to), next)
    ensures Spans(enc, st, s, ptr, name, value) ==
            (if EndsValue(st, to) then [Span(name, value, ptr)] else [])
            + Spans(enc, to, s, next, if BeginsName(st, to) then ptr else name, if BeginsValue(st, to) then next else value)
  {
    hide ReadAt, EndsValue, BeginsValue, BeginsName;
  }

  lemma CurrentAfter(enc: Encoding, s: Octets, att: Attribute, st: State, to: State, phase: Phase, name: nat,
                     value: nat, ptr: nat)
    requires ptr <= |s| && EndsValue(st, to)
    ensures forall n, v :: Current(enc, s, att, to, phase, n, v, ptr)
  {
  }

  lemma NotAtEnd(enc: Encoding, st: State, s: Octets, ptr: nat)
    requires ptr <= |s| && Run(enc, st, s, ptr).Token?
    ensures ptr < |s|
  {
    hide ReadAt;
  }

  lemma FirstStands(enc: Encoding, s: Octets, ptr: nat)
    requires ptr <= |s| && Run(enc, AfterLt, s, ptr).Token?
    ensures ptr < |s| && Stands(Naming, AfterLt)
    ensures forall att, n, v :: Current(enc, s, att, AfterLt, Naming, n, v, ptr)
  {
    hide ReadAt, AllFine, Clean, SpaceLast;
  }

  /** getAtts: all attributes are counted, the first attsMax are stored. */
  method GetAtts(enc: Encoding, s: Octets, start: nat, attsMax: nat, atts: array<Attribute>) returns (nAtts: nat)
    requires IsStartTag(enc, s, start) && attsMax <= atts.Length
    modifies atts
    ensures nAtts == |Attributes(enc, s, start)|
    ensures forall k :: 0 <= k < nAtts && k < attsMax ==> Stored(enc, s, atts[k], Attributes(enc, s, start)[k])
    ensures forall k :: attsMax <= k < atts.Length ==> atts[k] == old(atts[k])
  {
    hide ByteType, ReadAt, Run, Stands, Stored, CharSize, NextPhase, Touched, Current, IsTag, Spans, StepOf;
    hide BeginsName, BeginsValue, EndsValue, Leaves;
    nAtts := 0;
    var ptr := start + 1;
    var phase := Naming;
    ghost var st := AfterLt;
    ghost var done: seq<Span> := [];
    ghost var name, value: nat := 0, 0;
    FirstStands(enc, s, ptr);
    while true
      invariant ptr < |s| && Stands(phase, st) && (phase.Quoted? ==> value <= ptr)
      invariant Run(enc, st, s, ptr).Token? && IsTag(Run(enc, st, s, ptr).tok)
      invariant Attributes(enc, s, start) == done + Spans(enc, st, s, ptr, name, value) && nAtts == |done|
      invariant forall k :: 0 <= k < nAtts && k < attsMax ==> Stored(enc, s, atts[k], done[k])
      invariant nAtts < attsMax ==> Current(enc, s, atts[nAtts], st, phase, name, value, ptr)
      invariant forall k :: attsMax <= k < atts.Length ==> atts[k] == old(atts[k])
      decreases |s| - ptr
    {
      var t := ByteType(enc, s[ptr]);
      if Leaves(phase, t) {
        NoMoreSpans(enc, s, st, phase, ptr, name, value);
        return;
      }
      ghost var to, next := ReadOfTag(enc, s, st, phase, ptr);
      StepFacts(enc, s, st, to, phase, ptr, next, value);
      SpansStep(enc, s, st, to, ptr, next, name, value);
      if nAtts < attsMax {
        TouchedStep(enc, s, atts[nAtts], st, to, phase, name, value, ptr, next);
      }
      phase, nAtts := OnCharacter(enc, s, ptr, phase, attsMax, atts, nAtts);
      if EndsValue(st, to) {
        done := done + [Span(name, value, ptr)];
        if nAtts < attsMax {
          CurrentAfter(enc, s, atts[nAtts], st, to, phase, name, value, next);
        }
      }
      name, value := if BeginsName(st, to) then ptr else name, if BeginsValue(st, to) then next else value;
      st := to;
      ptr := ptr + CharSize(t);
      NotAtEnd(enc, st, s, ptr);
    }
  }

  // ----- a value marked as normalized is its own normalization

  lemma NormalPiece(enc: Encoding, v: Octets, i: nat)
    requires i < |v| && IsNormal(enc, v) && Copyable(enc, v)
    ensures var p := PieceAt(enc, v, i);
            !p.Wrong? && Plain(enc, v, i) == Ok(v[i..p.end]) && !IsEntityRef(enc, v, i)
  {
    hide ByteType, PieceAt, UncutAt;
    assert NormalAt(enc, v, i);
    WhiteAt(enc, v, i);
    if ByteType(enc, v[i]) != Space {
      TextAt(enc, v, i);
    } else {
      assert v[i..i + 1] == [SPACE];
    }
  }

  lemma {:induction false} NormalExpands(decls: Decls, check: bool, open: set<Octets>, enc: Encoding, v: Octets, i: nat)
    requires i <= |v| && IsNormal(enc, v) && Copyable(enc, v)
    ensures Expand(decls, check, open, enc, v, i) == Ok(v[i..])
    decreases |v| - i
  {
    hide PieceAt, Plain, IsEntityRef, IsNormal, Copyable;
    if i < |v| {
      NormalPiece(enc, v, i);
      var end := PieceAt(enc, v, i).end;
      NormalExpands(decls, check, open, enc, v, end);
      assert v[i..] == v[i..end] + v[end..];
    }
  }

  lemma {:induction false} NormalSqueezes(enc: Encoding, v: Octets, k: nat)
    requires k <= |v| && IsNormal(enc, v)
    ensures SqueezeAll([], v[..k]) == v[..k]
  {
    hide ByteType;
    if k > 0 {
      NormalSqueezes(enc, v, k - 1);
      assert v[..k][..k - 1] == v[..k - 1];
      assert v[..k] == v[..k - 1] + [v[k - 1]];
      SpaceAlone(enc, v, k - 1);
    }
  }

  lemma SpaceAlone(enc: Encoding, v: Octets, k: nat)
    requires k < |v| && IsNormal(enc, v)
    ensures v[k] == SPACE ==> 0 < k < |v| - 1 && v[k - 1] != SPACE
  {
    hide ByteType;
    SizeOfLead(enc, v[k]);
    assert NormalAt(enc, v, k);
    if k > 0 {
      SizeOfLead(enc, v[k - 1]);
      assert NormalAt(enc, v, k - 1);
    }
  }

  /** Section 3.3.3: the raw bytes are the value, whatever the type of the attribute and whatever is declared. */
  lemma NormalIsCopied(decls: Decls, check: bool, enc: Encoding, v: Octets)
    requires IsNormal(enc, v) && Copyable(enc, v)
    ensures Expand(decls, check, {}, enc, v, 0) == Ok(v)
    ensures Joined(Words(v)) == v
  {
    hide Expand, Words, Joined, SqueezeAll, IsNormal, Copyable;
    NormalExpands(decls, check, {}, enc, v, 0);
    assert v[0..] == v;
    NormalSqueezes(enc, v, |v|);
    assert v[..|v|] == v;
    TokenizedValue(v);
    if v != [] {
      SpaceAlone(enc, v, |v| - 1);
    }
  }

  // ----- the values of a tag that was accepted

  /** A reference state inside a value with this quote. */
  predicate RefIn(st: State, quote: BT) {
    match st
    case RefOpen(p) => p == InValue(quote)
    case RefName(p) => p == InValue(quote)
    case CharRefOpen(p) => p == InValue(quote)
    case Decimal(p) => p == InValue(quote)
    case HexOpen(p) => p == InValue(quote)
    case Hexadecimal(p) => p == InValue(quote)
    case _ => false
  }

  /** The same state of a reference in content. */
  function InText(st: State): State {
    match st
    case RefOpen(_) => RefOpen(InContent)
    case RefName(_) => RefName(InContent)
    case CharRefOpen(_) => CharRefOpen(InContent)
    case Decimal(_) => Decimal(InContent)
    case HexOpen(_) => HexOpen(InContent)
    case Hexadecimal(_) => Hexadecimal(InContent)
    case _ => st
  }

  predicate InsideValue(st: State) {
    match st
    case Value(_) => true
    case RefOpen(p) => p.InValue?
    case RefName(p) => p.InValue?
    case CharRefOpen(p) => p.InValue?
    case Decimal(p) => p.InValue?
    case HexOpen(p) => p.InValue?
    case Hexadecimal(p) => p.InValue?
    case _ => false
  }

  lemma RefSteps(enc: Encoding, st: State, quote: BT, t: BT, ch: Octets)
    requires RefIn(st, quote)
    ensures Step(enc, st, t, ch) == RefStep(enc, st, t, ch)
    ensures Step(enc, InText(st), t, ch) == RefStep(enc, InText(st), t, ch)
    ensures TakesLeads(st) == TakesLeads(InText(st))
  {
    hide RefStep, TagStep, IsNmStrt, CommentStep, PiStep;
  }

  /** A reference inside a value is read as one in content, up to what follows its end. */
  ghost predicate Mirrors(quote: BT, m: Move, o: Move) {
    !m.Done? && (m.Go? ==> (RefIn(m.to, quote) && o == Go(InText(m.to))) || (m.to == Value(quote) && o.Done?))
  }

  lemma OpenMirror(enc: Encoding, quote: BT, t: BT, ch: Octets)
    ensures Mirrors(quote, RefStep(enc, RefOpen(InValue(quote)), t, ch), RefStep(enc, RefOpen(InContent), t, ch))
  {
    hide RefStep, IsNmStrt, IsNameChar;
    RefNameStep(enc, InValue(quote), t, ch);
    RefNameStep(enc, InContent, t, ch);
  }

  lemma NameMirror(enc: Encoding, quote: BT, t: BT, ch: Octets)
    ensures Mirrors(quote, RefStep(enc, RefName(InValue(quote)), t, ch), RefStep(enc, RefName(InContent), t, ch))
  {
    hide RefStep, IsNmStrt, IsNameChar;
    RefNameStep(enc, InValue(quote), t, ch);
    RefNameStep(enc, InContent, t, ch);
  }

  lemma NumberMirror(enc: Encoding, quote: BT, t: BT, ch: Octets)
    ensures Mirrors(quote, RefStep(enc, CharRefOpen(InValue(quote)), t, ch), RefStep(enc, CharRefOpen(InContent), t, ch))
  {
    hide RefStep;
    CharRefStep(enc, InValue(quote), t, ch);
    CharRefStep(enc, InContent, t, ch);
  }

  lemma DecimalMirror(enc: Encoding, quote: BT, t: BT, ch: Octets)
    ensures Mirrors(quote, RefStep(enc, Decimal(InValue(quote)), t, ch), RefStep(enc, Decimal(InContent), t, ch))
  {
    hide RefStep;
    CharRefStep(enc, InValue(quote), t, ch);
    CharRefStep(enc, InContent, t, ch);
  }

  lemma HexMirror(enc: Encoding, quote: BT, t: BT, ch: Octets)
    ensures Mirrors(quote, RefStep(enc, HexOpen(InValue(quote)), t, ch), RefStep(enc, HexOpen(InContent), t, ch))
  {
    hide RefStep;
    CharRefStep(enc, InValue(quote), t, ch);
    CharRefStep(enc, InContent, t, ch);
  }

  lemma HexadecimalMirror(enc: Encoding, quote: BT, t: BT, ch: Octets)
    ensures Mirrors(quote, RefStep(enc, Hexadecimal(InValue(quote)), t, ch), RefStep(enc, Hexadecimal(InContent), t, ch))
  {
    hide RefStep;
    CharRefStep(enc, InValue(quote), t, ch);
    CharRefStep(enc, InContent, t, ch);
  }

  lemma RefMirror(enc: Encoding, st: State, quote: BT, t: BT, ch: Octets)
    requires RefIn(st, quote)
    ensures TakesLeads(st) == TakesLeads(InText(st))
    ensures Mirrors(quote, Step(enc, st, t, ch), Step(enc, InText(st), t, ch))
  {
    hide Step, RefStep, Mirrors;
    RefSteps(enc, st, quote, t, ch);
    OpenMirror(enc, quote, t, ch);
    NameMirror(enc, quote, t, ch);
    NumberMirror(enc, quote, t, ch);
    DecimalMirror(enc, quote, t, ch);
    HexMirror(enc, quote, t, ch);
    HexadecimalMirror(enc, quote, t, ch);
  }

  lemma RefEndsNothing(st: State, to: State, quote: BT)
    requires RefIn(st, quote)
    ensures !BeginsName(st, to) && !BeginsValue(st, to) && !EndsValue(st, to)
  {
  }

  /** A reference inside a value ends where it would end in content; then the value goes on. */
  lemma {:induction false} RefReturns(enc: Encoding, st: State, quote: BT, s: Octets, i: nat, name: nat, value: nat)
    requires i <= |s| && RefIn(st, quote) && Run(enc, st, s, i).Token?
    ensures var r := Run(enc, InText(st), s, i);
            && r.Token? && Run(enc, st, s, i) == Run(enc, Value(quote), s, r.end)
            && Spans(enc, st, s, i, name, value) == Spans(enc, Value(quote), s, r.end, name, value)
    decreases |s| - i
  {
    hide Step, ByteType, RefIn, InText, TakesLeads, BeginsName, BeginsValue, EndsValue, Run, Spans, Mirrors;
    NotAtEnd(enc, st, s, i);
    RunReads(enc, st, s, i);
    RunReads(enc, InText(st), s, i);
    var r := ReadAt(enc, st, s, i);
    RefMirror(enc, st, quote, ByteType(enc, s[i]), s[i..r.next]);
    MirrorsMeans(quote, r.move, ReadAt(enc, InText(st), s, i).move);
    RefEndsNothing(st, r.move.to, quote);
    SpansStep(enc, s, st, r.move.to, i, r.next, name, value);
    if RefIn(r.move.to, quote) {
      RefReturns(enc, r.move.to, quote, s, r.next, name, value);
    }
  }

  /** A run that finds a token has read a whole character. */
  lemma RunReads(enc: Encoding, st: State, s: Octets, i: nat)
    requires i < |s|
    ensures var r, run := ReadAt(enc, st, s, i), Run(enc, st, s, i);
            && (run.Token? ==> r.Whole? && !r.move.Fail?)
            && (r.Whole? && r.move.Go? ==> run == Run(enc, r.move.to, s, r.next))
            && (r.Whole? && r.move.Done? ==> run == Token(r.move.tok, r.next))
  {
    hide ReadAt;
  }

  lemma MirrorsMeans(quote: BT, m: Move, o: Move)
    requires Mirrors(quote, m, o) && !m.Fail?
    ensures m.Go? && (if RefIn(m.to, quote) then o == Go(InText(m.to)) else m.to == Value(quote) && o.Done?)
  {
  }

  /** A value begins and ends where the automaton says so. */
  ghost predicate KeepsInside(st: State, m: Move) {
    m.Go? ==>
      && (InsideValue(m.to) <==> BeginsValue(st, m.to) || (InsideValue(st) && !EndsValue(st, m.to)))
      && (BeginsValue(st, m.to) ==> m.to.Value? && (m.to.quote == Quot || m.to.quote == Apos))
  }

  lemma InsideTagMoves(enc: Encoding, st: State, t: BT, ch: Octets)
    ensures KeepsInside(st, TagStep(enc, st, t, ch))
  {
    hide IsNmStrt, IsNameChar, IsBlank, Refused;
  }

  lemma InsideRefMoves(enc: Encoding, st: State, t: BT, ch: Octets)
    ensures KeepsInside(st, RefStep(enc, st, t, ch))
  {
    hide IsNmStrt, IsNameChar;
  }

  lemma InsideMoves(enc: Encoding, st: State, t: BT, ch: Octets)
    ensures KeepsInside(st, Step(enc, st, t, ch))
    ensures InsideValue(st) ==> forall to :: !BeginsName(st, to) && !BeginsValue(st, to)
    ensures !InsideValue(st) ==> forall to :: !EndsValue(st, to)
  {
    hide TagStep, RefStep, IsNmStrt, IsNameChar, IsBlank, Refused;
    InsideTagMoves(enc, st, t, ch);
    InsideRefMoves(enc, st, t, ch);
  }

  /** The attribute being read is the next one that ends, and it ends later. */
  lemma {:induction false} HeadSpan(enc: Encoding, st: State, s: Octets, i: nat, name: nat, value: nat)
    requires i <= |s| && InsideValue(st) && Spans(enc, st, s, i, name, value) != []
    ensures var head := Spans(enc, st, s, i, name, value)[0]; head.value == value && i <= head.end <= |s|
    decreases |s| - i
  {
    hide Step, ByteType, InsideValue, BeginsName, BeginsValue, EndsValue, TakesLeads;
    var r := ReadAt(enc, st, s, i);
    InsideMoves(enc, st, ByteType(enc, s[i]), s[i..if r.Whole? then r.next else i]);
    if r.Whole? && r.move.Go? && !EndsValue(st, r.move.to) {
      HeadSpan(enc, r.move.to, s, r.next, name, value);
    }
  }

  /** A character of a value, neither its closing quote nor the beginning of a reference. */
  lemma ValueChar(enc: Encoding, quote: BT, s: Octets, i: nat, name: nat, value: nat)
    requires i < |s| && Run(enc, Value(quote), s, i).Token? && ByteType(enc, s[i]) != quote && ByteType(enc, s[i]) != Amp
    ensures var next := i + CharSize(ByteType(enc, s[i]));
            && next <= |s| && ByteType(enc, s[i]) != Lt && !Refused(ByteType(enc, s[i]), s[i..next])
            && Run(enc, Value(quote), s, next).Token?
            && Spans(enc, Value(quote), s, i, name, value) == Spans(enc, Value(quote), s, next, name, value)
  {
    hide ByteType, CharSize, Refused;
  }

  lemma ValueRef(enc: Encoding, quote: BT, s: Octets, i: nat, name: nat, value: nat)
    requires i < |s| && Run(enc, Value(quote), s, i).Token? && ByteType(enc, s[i]) != quote && ByteType(enc, s[i]) == Amp
    ensures var r := Run(enc, RefOpen(InContent), s, i + 1);
            && r.Token? && Run(enc, Value(quote), s, r.end).Token?
            && Spans(enc, Value(quote), s, i, name, value) == Spans(enc, Value(quote), s, r.end, name, value)
  {
    hide ByteType, Refused;
    RefReturns(enc, RefOpen(InValue(quote)), quote, s, i + 1, name, value);
  }

  lemma ValueCloses(enc: Encoding, quote: BT, s: Octets, i: nat, name: nat, value: nat)
    requires i < |s| && ByteType(enc, s[i]) == quote && CharSize(quote) == 1
    ensures Spans(enc, Value(quote), s, i, name, value) != []
    ensures Spans(enc, Value(quote), s, i, name, value)[0] == Span(name, value, i)
  {
    hide ByteType, Refused;
  }

  /** What a slice says of a reference, the whole text says too. */
  lemma RefOfSlice(enc: Encoding, s: Octets, a: nat, b: nat, j: nat)
    requires a <= b <= |s| && j <= b - a && Run(enc, RefOpen(InContent), s[a..b], j).Token?
    ensures Run(enc, RefOpen(InContent), s, a + j) == Shift(Run(enc, RefOpen(InContent), s[a..b], j), a)
  {
    hide Run;
    var v := s[a..b];
    RunStable(enc, RefOpen(InContent), v, s[b..], j);
    RunShift(enc, RefOpen(InContent), s[..a], v + s[b..], j);
    assert s == s[..a] + (v + s[b..]);
  }

  lemma RefIsWhole(enc: Encoding, v: Octets, j: nat)
    requires j < |v| && ByteType(enc, v[j]) == Amp
    requires var r := Run(enc, RefOpen(InContent), v, j + 1); r.Token? ==> WholeFrom(enc, v, r.end)
    ensures WholeFrom(enc, v, j)
  {
    hide ByteType, UncutAt;
    WhiteAt(enc, v, j);
  }

  lemma CharIsWhole(enc: Encoding, v: Octets, j: nat)
    requires j < |v| && ByteType(enc, v[j]) != Amp && ByteType(enc, v[j]) != Lt
    requires var next := j + CharSize(ByteType(enc, v[j]));
             next <= |v| && !Refused(ByteType(enc, v[j]), v[j..next]) && WholeFrom(enc, v, next)
    ensures WholeFrom(enc, v, j)
  {
    hide ByteType, LeadSize, Refused;
    SizeOfLead(enc, v[j]);
    GoodChar(enc, v, j, j + CharSize(ByteType(enc, v[j])));
  }

  /** In a value that the tokenizer has accepted no character is cut, references left aside. */
  lemma {:induction false} ValueIsWhole(enc: Encoding, quote: BT, s: Octets, a: nat, i: nat, b: nat, name: nat,
                                        value: nat)
    requires a <= i <= b <= |s| && Run(enc, Value(quote), s, i).Token? && (quote == Quot || quote == Apos)
    requires Spans(enc, Value(quote), s, i, name, value) != []
    requires Spans(enc, Value(quote), s, i, name, value)[0].end == b
    ensures WholeFrom(enc, s[a..b], i - a)
    decreases |s| - i
  {
    hide ByteType, CharSize, Run, Spans, PieceAt, UncutAt, Refused, WholeFrom;
    var v, j := s[a..b], i - a;
    NotAtEnd(enc, Value(quote), s, i);
    if ByteType(enc, s[i]) == quote {
      QuoteIsOneByte(quote);
      ValueCloses(enc, quote, s, i, name, value);
      NothingLeft(enc, v);
    } else if ByteType(enc, s[i]) == Amp {
      ValueRef(enc, quote, s, i, name, value);
      var e := Run(enc, RefOpen(InContent), s, i + 1).end;
      HeadSpan(enc, Value(quote), s, e, name, value);
      ValueIsWhole(enc, quote, s, a, e, b, name, value);
      if Run(enc, RefOpen(InContent), v, j + 1).Token? {
        RefOfSlice(enc, s, a, b, j + 1);
      }
      RefIsWhole(enc, v, j);
    } else {
      ValueChar(enc, quote, s, i, name, value);
      var e := i + CharSize(ByteType(enc, s[i]));
      HeadSpan(enc, Value(quote), s, e, name, value);
      ValueIsWhole(enc, quote, s, a, e, b, name, value);
      SliceOfSlice(s, a, b, j, e - a);
      CharIsWhole(enc, v, j);
    }
  }

  lemma SliceOfSlice(s: Octets, a: nat, b: nat, i: nat, j: nat)
    requires a <= b <= |s| && i <= j <= b - a
    ensures s[a..b][i..j] == s[a + i..a + j]
  {
    forall k | 0 <= k < j - i ensures s[a..b][i..j][k] == s[a + i..a + j][k] {
      assert s[a..b][i + k] == s[a + i + k];
    }
  }

  lemma NothingLeft(enc: Encoding, v: Octets)
    ensures WholeFrom(enc, v, |v|)
  {
  }

  /** The value that a span stands for is whole. */
  ghost predicate WholeSpan(enc: Encoding, s: Octets, span: Span) {
    span.value <= span.end <= |s| && WholeFrom(enc, s[span.value..span.end], 0)
  }

  lemma {:induction false} SpansAreWhole(enc: Encoding, st: State, s: Octets, i: nat, name: nat, value: nat)
    requires i <= |s| && Run(enc, st, s, i).Token?
    ensures var spans := Spans(enc, st, s, i, name, value);
            forall k :: 0 <= k < |spans| && (k > 0 || !InsideValue(st)) ==> WholeSpan(enc, s, spans[k])
    decreases |s| - i
  {
    hide ByteType, Step, InsideValue, BeginsName, BeginsValue, EndsValue, TakesLeads, WholeSpan;
    NotAtEnd(enc, st, s, i);
    var r := ReadAt(enc, st, s, i);
    if r.Whole? && r.move.Go? {
      var to := r.move.to;
      InsideMoves(enc, st, ByteType(enc, s[i]), s[i..r.next]);
      SpansStep(enc, s, st, to, i, r.next, name, value);
      SpansAreWhole(enc, to, s, r.next, if BeginsName(st, to) then i else name,
                    if BeginsValue(st, to) then r.next else value);
      if BeginsValue(st, to) {
        NewSpanIsWhole(enc, st, to, s, r.next, if BeginsName(st, to) then i else name);
      }
    }
  }

  lemma NewSpanIsWhole(enc: Encoding, st: State, to: State, s: Octets, i: nat, name: nat)
    requires i <= |s| && BeginsValue(st, to) && Run(enc, to, s, i).Token?
    requires to.quote == Quot || to.quote == Apos
    ensures Spans(enc, to, s, i, name, i) != [] ==> WholeSpan(enc, s, Spans(enc, to, s, i, name, i)[0])
  {
    hide Run, Spans, WholeFrom;
    if Spans(enc, to, s, i, name, i) != [] {
      HeadSpan(enc, to, s, i, name, i);
      ValueIsWhole(enc, to.quote, s, i, i, Spans(enc, to, s, i, name, i)[0].end, name, i);
    }
  }

  /** In no attribute value of an accepted tag is a character cut. */
  lemma AttributesAreWhole(enc: Encoding, s: Octets, start: nat)
    requires IsStartTag(enc, s, start)
    ensures forall k :: 0 <= k < |Attributes(enc, s, start)| ==> WholeSpan(enc, s, Attributes(enc, s, start)[k])
  {
    hide Run, Spans, WholeSpan;
    SpansAreWhole(enc, AfterLt, s, start + 1, 0, 0);
    assert !InsideValue(AfterLt) && Attributes(enc, s, start) == Spans(enc, AfterLt, s, start + 1, 0, 0);
  }

  /** The choice in storeAtts: both branches leave the normalized value in the pool. */
  method StoreValue(builder: ValueBuilder, enc: Encoding, isCdata: bool, s: Octets, att: Attribute, ghost start: nat,
                    ghost k: nat) returns (error: Option<Error>)
    requires IsStartTag(enc, s, start) && k < |Attributes(enc, s, start)|
    requires Stored(enc, s, att, Attributes(enc, s, start)[k])
    requires builder.Distinct() && builder.WholeTexts(enc) && builder.Opened({}) && builder.pool == []
    modifies builder`pool, builder.entities.Values
    ensures builder.Opened({})
    ensures match Expand(builder.Decls(), builder.check, {}, enc, s[att.valuePtr..att.valueEnd], 0)
            case Ok(out) => error.None? && builder.pool == if isCdata then out else Joined(Words(out))
            case Err(e) => error == Some(e)
  {
    hide Expand, Joined, Words, WholeFrom, IsNormal, Copyable, Attributes, IsStartTag;
    AttributesAreWhole(enc, s, start);
    var v := s[att.valuePtr..att.valueEnd];
    if !att.normalized {
      error := builder.StoreAttributeValue(enc, isCdata, v);
    } else {
      NormalIsCopied(builder.Decls(), builder.check, enc, v);
      builder.pool := builder.pool + v;
      error := None;
    }
  }
}
