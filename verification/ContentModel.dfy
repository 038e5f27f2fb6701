/**
  Content models of element type declarations (sections 3.2 to 3.2.2 of XML 1.0):
  the grammar, as trees, and the flat automaton of xmlnode/xmlrole.c that
  recognises it with one handler, one level counter and, in xmlnode/xmlparse.c,
  one connector per level.
 */
module ContentModel {
  import opened Bytes
  import opened Wrappers
  import opened XmlTok

  // ---------------------------------------------------------------- the grammar

  datatype Occurs = Once | Optional | Repeated | Plus

  /** A content particle: a name, or a choice or sequence of particles. */
  datatype Particle =
    | Leaf(name: bytes, occurs: Occurs)
    | Group(choice: bool, first: Particle, others: Particles, occurs: Occurs)

  datatype Particles = Nil | Cons(head: Particle, tail: Particles)

  /** contentspec; `star` tells "(#PCDATA)*" from "(#PCDATA)". */
  datatype ContentSpec = Empty | Any | Mixed(names: List<bytes>, star: bool) | Children(group: Particle)

  /** A choice has at least two alternatives. */
  predicate WellFormed(p: Particle) {
    match p
    case Leaf(_, _) => true
    case Group(choice, first, others, _) => WellFormed(first) && AllWellFormed(others) && (choice ==> others.Cons?)
  }

  predicate AllWellFormed(l: Particles) {
    match l
    case Nil => true
    case Cons(head, tail) => WellFormed(head) && AllWellFormed(tail)
  }

  predicate IsSpec(spec: ContentSpec) {
    match spec
    case Mixed(names, star) => names.More? ==> star
    case Children(group) => group.Group? && WellFormed(group)
    case _ => true
  }

  // ---------------------------------------------------------------- tokens

  /** A token of the prolog, with the name in it. */
  datatype Tok = Tok(kind: Kind, name: bytes)

  const ASCII_EMPTY: bytes := [0x45, 0x4D, 0x50, 0x54, 0x59]
  const ASCII_ANY: bytes := [0x41, 0x4E, 0x59]
  const ASCII_PCDATA: bytes := [0x50, 0x43, 0x44, 0x41, 0x54, 0x41]

  function NameKind(o: Occurs): Kind {
    match o
    case Once => Name
    case Optional => NameQuestion
    case Repeated => NameAsterisk
    case Plus => NamePlus
  }

  function CloseKind(o: Occurs): Kind {
    match o
    case Once => CloseParen
    case Optional => CloseParenQuestion
    case Repeated => CloseParenAsterisk
    case Plus => CloseParenPlus
  }

  function Mark(kind: Kind): Tok {
    Tok(kind, [])
  }

  /** Tokens, or roles, in the order in which they are read. */
  datatype List<T> = End | More(head: T, tail: List<T>)

  /** The tokens of a particle, followed by `k`. */
  function Show(p: Particle, k: List<Tok>): List<Tok>
    decreases p
  {
    match p
    case Leaf(name, o) => More(Tok(NameKind(o), name), k)
    case Group(choice, first, others, o) => More(Mark(OpenParen), Show(first, ShowRest(choice, others, o, k)))
  }

  /** The tokens of a group after its first particle. */
  function ShowRest(choice: bool, l: Particles, o: Occurs, k: List<Tok>): List<Tok>
    decreases l
  {
    match l
    case Nil => More(Mark(CloseKind(o)), k)
    case Cons(head, tail) => More(Mark(ConnectorKind(choice)), Show(head, ShowRest(choice, tail, o, k)))
  }

  function ConnectorKind(choice: bool): Kind {
    if choice then Or else CommaTok
  }

  function ShowNames(names: List<bytes>, k: List<Tok>): List<Tok> {
    match names
    case End => k
    case More(name, rest) => More(Mark(Or), More(Tok(Name, name), ShowNames(rest, k)))
  }

  function ShowSpec(spec: ContentSpec, k: List<Tok>): List<Tok> {
    match spec
    case Empty => More(Tok(Name, ASCII_EMPTY), k)
    case Any => More(Tok(Name, ASCII_ANY), k)
    case Mixed(names, star) =>
      var close := More(Mark(CloseKind(if star then Repeated else Once)), k);
      More(Mark(OpenParen), More(Tok(PoundName, ASCII_PCDATA), ShowNames(names, close)))
    case Children(group) => Show(group, k)
  }

  /** An element type declaration after its keyword. */
  function ShowDecl(name: bytes, spec: ContentSpec): List<Tok> {
    More(Tok(Name, name), ShowSpec(spec, More(Mark(DeclClose), End)))
  }

  /** The tokens that are not white space; marks carry no name. */
  function Strip(toks: List<Tok>): List<Tok> {
    match toks
    case End => End
    case More(t, rest) => if t.kind == PrologS then Strip(rest) else More(Plain(t), Strip(rest))
  }

  /** The token without bytes that nobody looks at. */
  function Plain(t: Tok): Tok {
    if IsNameKind(t.kind) || t.kind == PoundName then t else Mark(t.kind)
  }

  predicate IsNameKind(k: Kind) {
    k == Name || k == NameQuestion || k == NameAsterisk || k == NamePlus
  }

  function NameOccurs(k: Kind): (o: Occurs)
    requires IsNameKind(k)
    ensures NameKind(o) == k
  {
    if k == Name then Once else if k == NameQuestion then Optional else if k == NameAsterisk then Repeated else Plus
  }

  predicate IsCloseKind(k: Kind) {
    k == CloseParen || k == CloseParenQuestion || k == CloseParenAsterisk || k == CloseParenPlus
  }

  function CloseOccurs(k: Kind): (o: Occurs)
    requires IsCloseKind(k)
    ensures CloseKind(o) == k
  {
    if k == CloseParen then Once
    else if k == CloseParenQuestion then Optional
    else if k == CloseParenAsterisk then Repeated
    else Plus
  }

  // ---------------------------------------------------------------- the automaton

  datatype Handler =
    | Element0 | Element1 | Element2 | Element3 | Element4 | Element5 | Element6 | Element7
    | DeclCloser | InternalSubset | ErrorHandler

  datatype Role =
    | RoleNone | RoleError | ElementName | ContentEmpty | ContentAny | ContentPcdata
    | ContentElement(occurs: Occurs)
    | GroupOpen | GroupClose(occurs: Occurs) | GroupSequence | GroupChoice

  /** An element of groupConnector. */
  datatype Connector = Unset | Commas | Bars

  /** The handler, and the connectors of the groups that are open, innermost first. */
  datatype Machine = Machine(handler: Handler, stack: seq<Connector>)

  /** The next state and the role of a token; None for a syntax error. */
  function Move(m: Machine, t: Tok): Option<(Machine, Role)> {
    if m.handler == ErrorHandler then None
    else if t.kind == PrologS then Some((m, RoleNone))
    else
      match m.handler
      case Element0 => if t.kind == Name then Some((Machine(Element1, []), ElementName)) else None
      case Element1 =>
        if t.kind == Name && t.name == ASCII_EMPTY then Some((Machine(DeclCloser, []), ContentEmpty))
        else if t.kind == Name && t.name == ASCII_ANY then Some((Machine(DeclCloser, []), ContentAny))
        else if t.kind == OpenParen then Some((Machine(Element2, [Unset]), GroupOpen))
        else None
      case Element2 =>
        if t.kind == PoundName && t.name == ASCII_PCDATA then Some((Machine(Element3, []), ContentPcdata))
        else ParticleMove(m, t)
      case Element3 =>
        if t.kind == CloseParen || t.kind == CloseParenAsterisk then
          Some((Machine(DeclCloser, []), GroupClose(Repeated)))
        else if t.kind == Or then Some((Machine(Element4, []), RoleNone))
        else None
      case Element4 => if t.kind == Name then Some((Machine(Element5, []), ContentElement(Once))) else None
      case Element5 =>
        if t.kind == CloseParenAsterisk then Some((Machine(DeclCloser, []), GroupClose(Repeated)))
        else if t.kind == Or then Some((Machine(Element4, []), RoleNone))
        else None
      case Element6 => ParticleMove(m, t)
      case Element7 => AfterParticleMove(m, t)
      case DeclCloser => if t.kind == DeclClose then Some((Machine(InternalSubset, []), RoleNone)) else None
      case _ => None
  }

  /** Where a content particle is expected. */
  function ParticleMove(m: Machine, t: Tok): Option<(Machine, Role)> {
    if t.kind == OpenParen then Some((Machine(Element6, [Unset] + m.stack), GroupOpen))
    else if IsNameKind(t.kind) then Some((Machine(Element7, m.stack), ContentElement(NameOccurs(t.kind))))
    else None
  }

  /** After a content particle: the group is closed, or goes on with its own connector. */
  function AfterParticleMove(m: Machine, t: Tok): Option<(Machine, Role)> {
    if m.stack == [] then None
    else if IsCloseKind(t.kind) then
      Some((Machine(if |m.stack| == 1 then DeclCloser else Element7, m.stack[1..]), GroupClose(CloseOccurs(t.kind))))
    else if t.kind == CommaTok && m.stack[0] != Bars then
      Some((Machine(Element6, [Commas] + m.stack[1..]), GroupSequence))
    else if t.kind == Or && m.stack[0] != Commas then Some((Machine(Element6, [Bars] + m.stack[1..]), GroupChoice))
    else None
  }

  /** The roles other than XML_ROLE_NONE of tokens that are accepted up to the end of a declaration. */
  function Accept(m: Machine, toks: List<Tok>): Option<List<Role>>
    decreases toks
  {
    match toks
    case End => if m.handler == InternalSubset then Some(End) else None
    case More(t, rest) =>
      match Move(m, t)
      case None => None
      case Some((m', role)) => Reports(role, Accept(m', rest))
  }

  function Reports(role: Role, r: Option<List<Role>>): Option<List<Role>> {
    if r.None? || role == RoleNone then r else Some(More(role, r.value))
  }

  const START := Machine(Element0, [])

  // ---------------------------------------------------------------- roles of a declaration

  function Roles(p: Particle, k: List<Role>): List<Role>
    decreases p
  {
    match p
    case Leaf(_, o) => More(ContentElement(o), k)
    case Group(choice, first, others, o) => More(GroupOpen, Roles(first, RestRoles(choice, others, o, k)))
  }

  function RestRoles(choice: bool, l: Particles, o: Occurs, k: List<Role>): List<Role>
    decreases l
  {
    match l
    case Nil => More(GroupClose(o), k)
    case Cons(head, tail) =>
      More(ConnectorRole(choice), Roles(head, RestRoles(choice, tail, o, k)))
  }

  function NameRoles(names: List<bytes>, k: List<Role>): List<Role> {
    match names
    case End => k
    case More(_, rest) => More(ContentElement(Once), NameRoles(rest, k))
  }

  function SpecRoles(spec: ContentSpec, k: List<Role>): List<Role> {
    match spec
    case Empty => More(ContentEmpty, k)
    case Any => More(ContentAny, k)
    case Mixed(names, _) => More(GroupOpen, More(ContentPcdata, NameRoles(names, More(GroupClose(Repeated), k))))
    case Children(group) => Roles(group, k)
  }

  // ---------------------------------------------------------------- every declaration is accepted

  predicate Fits(c: Connector, choice: bool) {
    c == Unset || (c == Bars <==> choice)
  }

  /** The machine after the parenthesis that leaves `stack`. */
  function Closed(stack: seq<Connector>): Machine {
    Machine(if stack == [] then DeclCloser else Element7, stack)
  }

  /** One token that is accepted. */
  lemma AcceptMove(m: Machine, t: Tok, k: List<Tok>, m': Machine, role: Role)
    requires Move(m, t) == Some((m', role))
    ensures Accept(m, More(t, k)) == Reports(role, Accept(m', k))
  {
  }

  lemma MoveClose(c: Connector, stack: seq<Connector>, o: Occurs)
    ensures Move(Machine(Element7, [c] + stack), Mark(CloseKind(o))) == Some((Closed(stack), GroupClose(o)))
  {
    assert ([c] + stack)[1..] == stack;
  }

  function ConnectorOf(choice: bool): Connector {
    if choice then Bars else Commas
  }

  function ConnectorRole(choice: bool): Role {
    if choice then GroupChoice else GroupSequence
  }

  lemma MoveConnector(c: Connector, stack: seq<Connector>, choice: bool)
    requires Fits(c, choice)
    ensures Move(Machine(Element7, [c] + stack), Mark(ConnectorKind(choice)))
         == Some((Machine(Element6, [ConnectorOf(choice)] + stack), ConnectorRole(choice)))
  {
    assert ([c] + stack)[1..] == stack;
  }

  /** A particle takes the automaton from where one is expected to where one has ended. */
  lemma {:induction false} ParticleAccepted(h: Handler, stack: seq<Connector>, p: Particle, k: List<Tok>)
    requires (h == Element2 || h == Element6) && stack != [] && WellFormed(p)
    ensures
      var end := Accept(Machine(Element7, stack), k);
      Accept(Machine(h, stack), Show(p, k)) == if end.None? then None else Some(Roles(p, end.value))
    decreases p
  {
    match p
    case Leaf(name, o) =>
      AcceptMove(Machine(h, stack), Tok(NameKind(o), name), k, Machine(Element7, stack), ContentElement(o));
    case Group(choice, first, others, o) =>
      var rest := ShowRest(choice, others, o, k);
      AcceptMove(Machine(h, stack), Mark(OpenParen), Show(first, rest), Machine(Element6, [Unset] + stack), GroupOpen);
      ParticleAccepted(Element6, [Unset] + stack, first, rest);
      RestAccepted(Unset, stack, choice, others, o, k);
  }

  /** The rest of a group, from after a particle to after the closing parenthesis. */
  lemma {:induction false} RestAccepted(
    c: Connector, stack: seq<Connector>, choice: bool, l: Particles, o: Occurs, k: List<Tok>)
    requires Fits(c, choice) && AllWellFormed(l)
    ensures
      var end := Accept(Closed(stack), k);
      Accept(Machine(Element7, [c] + stack), ShowRest(choice, l, o, k))
      == if end.None? then None else Some(RestRoles(choice, l, o, end.value))
    decreases l
  {
    match l
    case Nil =>
      MoveClose(c, stack, o);
      AcceptMove(Machine(Element7, [c] + stack), Mark(CloseKind(o)), k, Closed(stack), GroupClose(o));
    case Cons(head, tail) =>
      var stack' := [ConnectorOf(choice)] + stack;
      var rest := ShowRest(choice, tail, o, k);
      MoveConnector(c, stack, choice);
      AcceptMove(
        Machine(Element7, [c] + stack), Mark(ConnectorKind(choice)), Show(head, rest), Machine(Element6, stack'),
        ConnectorRole(choice));
      ParticleAccepted(Element6, stack', head, rest);
      RestAccepted(ConnectorOf(choice), stack, choice, tail, o, k);
  }

  lemma {:induction false} NamesAccepted(names: List<bytes>, k: List<Tok>)
    ensures
      var end := Accept(Machine(DeclCloser, []), k);
      Accept(Machine(Element5, []), ShowNames(names, More(Mark(CloseParenAsterisk), k)))
      == if end.None? then None else Some(NameRoles(names, More(GroupClose(Repeated), end.value)))
  {
    match names
    case End =>
    case More(_, rest) => NamesAccepted(rest, k);
  }

  /** What follows "#PCDATA". */
  lemma PcdataAccepted(names: List<bytes>, star: bool, k: List<Tok>)
    requires names.More? ==> star
    ensures
      var end := Accept(Machine(DeclCloser, []), k);
      Accept(Machine(Element3, []), ShowNames(names, More(Mark(CloseKind(if star then Repeated else Once)), k)))
      == if end.None? then None else Some(NameRoles(names, More(GroupClose(Repeated), end.value)))
  {
    if names.More? {
      NamesAccepted(names, k);
    }
  }

  lemma ChildrenAccepted(choice: bool, first: Particle, others: Particles, o: Occurs, k: List<Tok>)
    requires WellFormed(first) && AllWellFormed(others)
    ensures
      var end := Accept(Machine(DeclCloser, []), k);
      Accept(Machine(Element2, [Unset]), Show(first, ShowRest(choice, others, o, k)))
      == if end.None? then None else Some(Roles(first, RestRoles(choice, others, o, end.value)))
  {
    ParticleAccepted(Element2, [Unset], first, ShowRest(choice, others, o, k));
    RestAccepted(Unset, [], choice, others, o, k);
    assert [Unset] + [] == [Unset];
  }

  lemma SpecAccepted(spec: ContentSpec, k: List<Tok>)
    requires IsSpec(spec)
    ensures
      var end := Accept(Machine(DeclCloser, []), k);
      Accept(Machine(Element1, []), ShowSpec(spec, k)) == if end.None? then None else Some(SpecRoles(spec, end.value))
  {
    var m, m2 := Machine(Element1, []), Machine(Element2, [Unset]);
    match spec
    case Empty => AcceptMove(m, Tok(Name, ASCII_EMPTY), k, Machine(DeclCloser, []), ContentEmpty);
    case Any => AcceptMove(m, Tok(Name, ASCII_ANY), k, Machine(DeclCloser, []), ContentAny);
    case Mixed(names, star) =>
      var rest := ShowNames(names, More(Mark(CloseKind(if star then Repeated else Once)), k));
      PcdataAccepted(names, star, k);
      AcceptMove(m2, Tok(PoundName, ASCII_PCDATA), rest, Machine(Element3, []), ContentPcdata);
      AcceptMove(m, Mark(OpenParen), More(Tok(PoundName, ASCII_PCDATA), rest), m2, GroupOpen);
    case Children(group) =>
      ChildrenAccepted(group.choice, group.first, group.others, group.occurs, k);
      AcceptMove(
        m, Mark(OpenParen), Show(group.first, ShowRest(group.choice, group.others, group.occurs, k)), m2, GroupOpen);
  }

  /** Every element type declaration of the grammar is accepted, with the roles of its content model. */
  lemma DeclAccepted(name: bytes, spec: ContentSpec)
    requires IsSpec(spec)
    ensures Accept(START, ShowDecl(name, spec)) == Some(More(ElementName, SpecRoles(spec, End)))
  {
    var close := More(Mark(DeclClose), End);
    SpecAccepted(spec, close);
    assert Accept(Machine(DeclCloser, []), close) == Some(End);
  }

  // ---------------------------------------------------------------- nothing else is accepted

  predicate Accepts(m: Machine, toks: List<Tok>) {
    Accept(m, toks).Some?
  }

  /** Tokens without white space, and without bytes that nobody looks at. */
  predicate Bare(toks: List<Tok>) {
    match toks
    case End => true
    case More(t, rest) => t.kind != PrologS && Plain(t) == t && Bare(rest)
  }

  lemma {:induction false} ParseParticle(h: Handler, stack: seq<Connector>, toks: List<Tok>)
      returns (p: Particle, k: List<Tok>)
    requires (h == Element2 || h == Element6) && stack != [] && Bare(toks) && Accepts(Machine(h, stack), toks)
    requires h == Element2 ==> !(toks.head.kind == PoundName && toks.head.name == ASCII_PCDATA)
    ensures WellFormed(p) && toks == Show(p, k) && Bare(k) && k < toks && Accepts(Machine(Element7, stack), k)
    decreases toks
  {
    var t := toks.head;
    if IsNameKind(t.kind) {
      p, k := Leaf(t.name, NameOccurs(t.kind)), toks.tail;
    } else {
      var first, k' := ParseParticle(Element6, [Unset] + stack, toks.tail);
      var choice, others, o;
      choice, others, o, k := ParseRest(Unset, stack, k');
      p := Group(choice, first, others, o);
    }
  }

  lemma {:induction false} ParseRest(c: Connector, stack: seq<Connector>, toks: List<Tok>)
    returns (choice: bool, l: Particles, o: Occurs, k: List<Tok>)
    requires Bare(toks) && Accepts(Machine(Element7, [c] + stack), toks)
    ensures Fits(c, choice) && AllWellFormed(l) && (c == Unset && choice ==> l.Cons?)
    ensures toks == ShowRest(choice, l, o, k) && Bare(k) && k < toks && Accepts(Closed(stack), k)
    decreases toks
  {
    assert ([c] + stack)[1..] == stack;
    var t := toks.head;
    if IsCloseKind(t.kind) {
      choice, l, o, k := c == Bars, Nil, CloseOccurs(t.kind), toks.tail;
    } else {
      choice := t.kind == Or;
      var c' := if choice then Bars else Commas;
      var head, k' := ParseParticle(Element6, [c'] + stack, toks.tail);
      var choice', tail;
      choice', tail, o, k := ParseRest(c', stack, k');
      l := Cons(head, tail);
    }
  }

  /** The first of some accepted tokens, and what it leaves. */
  lemma FirstMove(m: Machine, toks: List<Tok>) returns (t: Tok, m': Machine, k: List<Tok>)
    requires Bare(toks) && Accepts(m, toks) && m.handler != InternalSubset
    ensures toks == More(t, k) && t.kind != PrologS && Plain(t) == t && Bare(k)
    ensures Move(m, t).Some? && m' == Move(m, t).value.0 && Accepts(m', k)
  {
    t, k := toks.head, toks.tail;
    m' := Move(m, t).value.0;
  }

  /** What is accepted after "#PCDATA" or a name of mixed content. */
  lemma {:induction false} ParseNames(h: Handler, toks: List<Tok>)
      returns (names: List<bytes>, star: bool, k: List<Tok>)
    requires (h == Element3 || h == Element5) && Bare(toks) && Accepts(Machine(h, []), toks)
    ensures h == Element5 || names.More? ==> star
    ensures toks == ShowNames(names, More(Mark(CloseKind(if star then Repeated else Once)), k))
    ensures Bare(k) && Accepts(Machine(DeclCloser, []), k)
    decreases toks
  {
    var t, m', k1 := FirstMove(Machine(h, []), toks);
    if IsCloseKind(t.kind) {
      names, star, k := End, t.kind == CloseParenAsterisk, k1;
    } else {
      var t', m'', k2 := FirstMove(Machine(Element4, []), k1);
      var names';
      names', star, k := ParseNames(Element5, k2);
      names := More(t'.name, names');
    }
  }

  lemma ParseSpec(toks: List<Tok>) returns (spec: ContentSpec, k: List<Tok>)
    requires Bare(toks) && Accepts(Machine(Element1, []), toks)
    ensures IsSpec(spec) && toks == ShowSpec(spec, k) && Bare(k) && Accepts(Machine(DeclCloser, []), k)
  {
    var t, m', tail := FirstMove(Machine(Element1, []), toks);
    if t.kind == Name {
      spec, k := if t.name == ASCII_EMPTY then Empty else Any, tail;
    } else {
      spec, k := ParseOpened(tail);
    }
  }

  /** What is accepted after the first parenthesis. */
  lemma ParseOpened(toks: List<Tok>) returns (spec: ContentSpec, k: List<Tok>)
    requires Bare(toks) && Accepts(Machine(Element2, [Unset]), toks)
    ensures IsSpec(spec) && More(Mark(OpenParen), toks) == ShowSpec(spec, k)
    ensures Bare(k) && Accepts(Machine(DeclCloser, []), k)
  {
    var t, m', tail := FirstMove(Machine(Element2, [Unset]), toks);
    if t.kind == PoundName {
      var names, star;
      names, star, k := ParseNames(Element3, tail);
      spec := Mixed(names, star);
    } else {
      var first, k' := ParseParticle(Element2, [Unset], toks);
      assert [Unset] == [Unset] + [];
      var choice, others, o;
      choice, others, o, k := ParseRest(Unset, [], k');
      spec := Children(Group(choice, first, others, o));
    }
  }

  lemma ParseDecl(toks: List<Tok>) returns (name: bytes, spec: ContentSpec)
    requires Bare(toks) && Accepts(START, toks)
    ensures IsSpec(spec) && toks == ShowDecl(name, spec)
  {
    var t, m', tail := FirstMove(START, toks);
    name := t.name;
    var k;
    spec, k := ParseSpec(tail);
    var close, m'', end := FirstMove(Machine(DeclCloser, []), k);
    NothingFollows(end);
  }

  lemma NothingFollows(toks: List<Tok>)
    requires Bare(toks) && Accepts(Machine(InternalSubset, []), toks)
    ensures toks.End?
  {
  }

  lemma {:induction false} StripIsBare(toks: List<Tok>)
    ensures Bare(Strip(toks))
  {
    match toks
    case End =>
    case More(_, rest) => StripIsBare(rest);
  }

  /** White space changes nothing. */
  lemma {:induction false} AcceptStripped(m: Machine, toks: List<Tok>)
    requires m.handler != ErrorHandler
    ensures Accept(m, Strip(toks)) == Accept(m, toks)
    decreases toks
  {
    match toks
    case End =>
    case More(t, rest) =>
      match Move(m, t)
      case None =>
      case Some((m', _)) => AcceptStripped(m', rest);
  }

  /**
    The automaton accepts exactly the grammar: EMPTY, ANY, mixed content, and
    groups to any depth that do not mix "," and "|". It reports the roles of the
    content model, in order.
   */
  lemma AcceptsGrammar(toks: List<Tok>)
    ensures Accepts(START, toks) <==> exists name, spec :: IsSpec(spec) && Strip(toks) == ShowDecl(name, spec)
    ensures
      forall name, spec :: IsSpec(spec) && Strip(toks) == ShowDecl(name, spec) ==>
        Accept(START, toks) == Some(More(ElementName, SpecRoles(spec, End)))
  {
    StripIsBare(toks);
    AcceptStripped(START, toks);
    if Accepts(START, toks) {
      var name, spec := ParseDecl(Strip(toks));
    }
    forall name, spec | IsSpec(spec) && Strip(toks) == ShowDecl(name, spec)
      ensures Accept(START, toks) == Some(More(ElementName, SpecRoles(spec, End)))
    {
      DeclAccepted(name, spec);
    }
  }
}
