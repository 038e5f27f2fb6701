/**
  The recogniser in its own form: PROLOG_STATE of xmlnode/xmlrole.c, with its
  handler and one level counter, and the array groupConnector of
  xmlnode/xmlparse.c, which grows as groups nest.
 */
module ContentModelState {
  import opened Bytes
  import opened Wrappers
  import opened XmlTok
  import opened ContentModel

  const INIT_GROUP_SIZE := 32

  class Declarations {
    var handler: Handler
    var level: nat
    var groupConnector: array<Connector>

    predicate InGroup()
      reads this`handler
    {
      handler == Element2 || handler == Element6 || handler == Element7
    }

    /** The fields stand for `m`: the connectors of the open groups are at 1 to `level` of the array. */
    ghost predicate Models(m: Machine)
      reads this, groupConnector
    {
      && handler == m.handler && handler != ErrorHandler
      && (InGroup() ==>
            && 0 < level == |m.stack| < groupConnector.Length
            && forall i :: 0 < i <= level ==> groupConnector[i] == m.stack[level - i])
      && (!InGroup() ==> m.stack == [])
      && (handler == Element2 ==> level == 1)
    }

    constructor ()
      ensures Models(START) && fresh(groupConnector)
    {
      handler, level := Element0, 0;
      groupConnector := new Connector[0];
    }

    /** XML_ROLE_GROUP_OPEN: there is room for the connector of the level. */
    method OpenGroup()
      requires 0 < level && (level <= groupConnector.Length || level == 1)
      modifies this`groupConnector, groupConnector
      ensures groupConnector == old(groupConnector) || fresh(groupConnector)
      ensures level < groupConnector.Length && groupConnector[level] == Unset
      ensures forall i :: 0 < i < level ==> groupConnector[i] == old(groupConnector[i])
    {
      if level >= groupConnector.Length {
        var size := if groupConnector.Length != 0 then 2 * groupConnector.Length else INIT_GROUP_SIZE;
        var more := new Connector[size];
        forall i | 0 <= i < groupConnector.Length {
          more[i] := groupConnector[i];
        }
        groupConnector := more;
      }
      groupConnector[level] := Unset;
    }

    /** XML_ROLE_GROUP_SEQUENCE and XML_ROLE_GROUP_CHOICE: a group has one connector only. */
    method Connect(connector: Connector, other: Connector) returns (ok: bool)
      requires 0 < level < groupConnector.Length
      modifies groupConnector
      ensures ok == (old(groupConnector[level]) != other)
      ensures ok ==> groupConnector[level] == connector
      ensures forall i :: 0 < i < level ==> groupConnector[i] == old(groupConnector[i])
    {
      if groupConnector[level] == other { return false; }
      groupConnector[level] := connector;
      ok := true;
    }

    /** The case of prologProcessor for `role`. */
    method HandleRole(role: Role) returns (ok: bool)
      requires role == GroupOpen ==> 0 < level && (level <= groupConnector.Length || level == 1)
      requires role == GroupSequence || role == GroupChoice ==> 0 < level < groupConnector.Length
      modifies this`groupConnector, groupConnector
      ensures groupConnector == old(groupConnector) || fresh(groupConnector)
      ensures
        forall i :: 0 < i < level && i < old(groupConnector.Length) ==>
          i < groupConnector.Length && groupConnector[i] == old(groupConnector[i])
      ensures role == GroupOpen ==> ok && level < groupConnector.Length && groupConnector[level] == Unset
      ensures
        role == GroupSequence || role == GroupChoice ==>
          var c := if role == GroupSequence then Commas else Bars;
          && groupConnector == old(groupConnector)
          && ok == (old(groupConnector[level]) == Unset || old(groupConnector[level]) == c)
          && (ok ==> groupConnector[level] == c)
      ensures
        role != GroupOpen && role != GroupSequence && role != GroupChoice ==>
          ok == (role != RoleError) && groupConnector == old(groupConnector)
          && forall i :: 0 <= i < groupConnector.Length ==> groupConnector[i] == old(groupConnector[i])
    {
      ok := true;
      if role == GroupOpen {
        OpenGroup();
      } else if role == GroupSequence {
        ok := Connect(Commas, Bars);
      } else if role == GroupChoice {
        ok := Connect(Bars, Commas);
      } else if role == RoleError {
        ok := false;
      }
    }

    /** element2 and element6, where a content particle is expected. */
    method ParticleRole(t: Kind) returns (role: Role)
      requires handler == Element2 ==> level == 1
      modifies this`handler, this`level
      ensures t == OpenParen ==> role == GroupOpen && handler == Element6 && level == old(level) + 1
      ensures IsNameKind(t) ==> role == ContentElement(NameOccurs(t)) && handler == Element7 && level == old(level)
      ensures t != OpenParen && !IsNameKind(t) ==> role == RoleError
    {
      if t == OpenParen {
        level, handler := if handler == Element2 then 2 else level + 1, Element6;
        return GroupOpen;
      }
      if IsNameKind(t) {
        handler := Element7;
        return ContentElement(NameOccurs(t));
      }
      handler := ErrorHandler;
      role := RoleError;
    }

    /** element7, where a group is closed. */
    method CloseRole(t: Kind, ghost m: Machine) returns (role: Role)
      requires Models(m) && handler == Element7 && IsCloseKind(t)
      modifies this`handler, this`level
      ensures role == GroupClose(CloseOccurs(t)) && Models(ContentModel.Closed(m.stack[1..]))
    {
      level := level - 1;
      if level == 0 {
        handler := DeclCloser;
      }
      role := GroupClose(CloseOccurs(t));
      forall i | 0 < i <= level ensures groupConnector[i] == m.stack[1..][level - i] {
        assert m.stack[1..][level - i] == m.stack[level + 1 - i];
      }
    }

    /** element7, where a group goes on. */
    method ConnectorToken(t: Kind, ghost m: Machine) returns (ok: bool, role: Role)
      requires Models(m) && handler == Element7 && (t == CommaTok || t == Or)
      modifies this`handler, this`groupConnector, groupConnector
      ensures groupConnector == old(groupConnector)
      ensures
        var c := ConnectorOf(t == Or);
        && ok == (m.stack[0] == Unset || m.stack[0] == c)
        && role == ConnectorRole(t == Or)
        && (ok ==> Models(Machine(Element6, [c] + m.stack[1..])))
    {
      handler := Element6;
      role := if t == Or then GroupChoice else GroupSequence;
      assert groupConnector[level] == m.stack[0];
      ok := HandleRole(role);
      ghost var stack := [ConnectorOf(t == Or)] + m.stack[1..];
      forall i | 0 < i < level ensures groupConnector[i] == stack[level - i] {
        assert stack[level - i] == m.stack[level - i];
      }
    }

    /** The handlers without a group to keep: element0, element1, element3, element4, element5 and declClose. */
    method PlainRole(tok: Tok) returns (role: Role)
      requires !InGroup() && handler != ErrorHandler && tok.kind != PrologS
      modifies this`handler, this`level
      ensures
        match Move(Machine(old(handler), []), tok)
        case None => role == RoleError
        case Some((m, r)) =>
          && role == r && handler == m.handler && (handler == Element2 ==> level == 1)
          && (InGroup() <==> r == GroupOpen)
    {
      var t := tok.kind;
      if handler == Element0 {
        if t == Name { handler := Element1; return ElementName; }
      } else if handler == Element1 {
        if t == Name && tok.name == ASCII_EMPTY { handler := DeclCloser; return ContentEmpty; }
        if t == Name && tok.name == ASCII_ANY { handler := DeclCloser; return ContentAny; }
        if t == OpenParen { handler, level := Element2, 1; return GroupOpen; }
      } else if handler == Element3 {
        if t == CloseParen || t == CloseParenAsterisk { handler := DeclCloser; return GroupClose(Repeated); }
        if t == Or { handler := Element4; return RoleNone; }
      } else if handler == Element4 {
        if t == Name { handler := Element5; return ContentElement(Once); }
      } else if handler == Element5 {
        if t == CloseParenAsterisk { handler := DeclCloser; return GroupClose(Repeated); }
        if t == Or { handler := Element4; return RoleNone; }
      } else if handler == DeclCloser {
        if t == DeclClose { handler := InternalSubset; return RoleNone; }
      }
      handler := ErrorHandler;
      role := RoleError;
    }

    /** A token went as `Move` says. */
    ghost predicate Moved(step: Option<(Machine, Role)>, ok: bool, role: Role)
      reads this, groupConnector
    {
      match step
      case None => !ok
      case Some((m, r)) => ok && role == r && Models(m)
    }

    method ParticleToken(t: Tok, ghost m: Machine) returns (ok: bool, role: Role)
      requires Models(m) && (handler == Element2 || handler == Element6)
      modifies this, groupConnector
      ensures groupConnector == old(groupConnector) || fresh(groupConnector)
      ensures Moved(ParticleMove(m, t), ok, role)
    {
      role := ParticleRole(t.kind);
      ok := HandleRole(role);
    }

    method AfterParticleToken(t: Tok, ghost m: Machine) returns (ok: bool, role: Role)
      requires Models(m) && handler == Element7
      modifies this, groupConnector
      ensures groupConnector == old(groupConnector)
      ensures Moved(AfterParticleMove(m, t), ok, role)
    {
      if IsCloseKind(t.kind) {
        role := CloseRole(t.kind, m);
        ok := true;
      } else if t.kind == CommaTok || t.kind == Or {
        ok, role := ConnectorToken(t.kind, m);
      } else {
        handler := ErrorHandler;
        ok, role := false, RoleError;
      }
    }

    method PlainToken(t: Tok, ghost m: Machine) returns (ok: bool, role: Role)
      requires Models(m) && !InGroup() && t.kind != PrologS
      modifies this, groupConnector
      ensures groupConnector == old(groupConnector) || fresh(groupConnector)
      ensures Moved(Move(m, t), ok, role)
    {
      role := PlainRole(t);
      ok := HandleRole(role);
    }

    /** XmlTokenRole and the case of its role: the step of the automaton on the stack of connectors. */
    method ProcessToken(t: Tok, ghost m: Machine) returns (ok: bool, role: Role)
      requires Models(m)
      modifies this, groupConnector
      ensures groupConnector == old(groupConnector) || fresh(groupConnector)
      ensures Moved(Move(m, t), ok, role)
    {
      if t.kind == PrologS {
        return true, RoleNone;
      } else if handler == Element2 && t.kind == PoundName && t.name == ASCII_PCDATA {
        handler := Element3;
        return true, ContentPcdata;
      } else if handler == Element2 || handler == Element6 {
        ok, role := ParticleToken(t, m);
      } else if handler == Element7 {
        ok, role := AfterParticleToken(t, m);
      } else {
        ok, role := PlainToken(t, m);
      }
    }
  }

  /**
    The loop of prologProcessor over the tokens of one element type declaration:
    it succeeds exactly for the declarations of the grammar, with their roles.
   */
  method ReadDeclaration(toks: List<Tok>) returns (ok: bool, roles: List<Role>)
    ensures ok <==> exists name, spec :: IsSpec(spec) && Strip(toks) == ShowDecl(name, spec)
    ensures
      forall name, spec :: ok && Strip(toks) == ShowDecl(name, spec) && IsSpec(spec) ==>
        Forward(roles, End) == More(ElementName, SpecRoles(spec, End))
  {
    AcceptsGrammar(toks);
    var state := new Declarations();
    var rest := toks;
    ghost var m := START;
    roles := End;
    ok := true;
    while rest.More?
      invariant state.Models(m) && fresh(state) && fresh(state.groupConnector)
      invariant Accept(START, toks) == Prepend(roles, Accept(m, rest))
      decreases rest
    {
      var role;
      ghost var step := Move(m, rest.head);
      ok, role := state.ProcessToken(rest.head, m);
      if !ok { return; }
      m := step.value.0;
      if role != RoleNone {
        roles := More(role, roles);
      }
      rest := rest.tail;
    }
    ok := state.handler == InternalSubset;
  }

  /** The roles that were collected, latest first, before `k`. */
  function Forward(collected: List<Role>, k: List<Role>): List<Role> {
    match collected
    case End => k
    case More(r, earlier) => Forward(earlier, More(r, k))
  }

  function Prepend(collected: List<Role>, r: Option<List<Role>>): Option<List<Role>> {
    if r.None? then None else Some(Forward(collected, r.value))
  }
}
