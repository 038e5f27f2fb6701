/** How content models are written, in the notation of section 3.2 of XML 1.0, and which role each mark has. */
module ContentModelLaws {
  import opened Bytes
  import opened XmlTok
  import opened ContentModel
  import opened Wrappers

  // ---------------------------------------------------------------- text

  /** A token as it is written. */
  function TokText(t: Tok): bytes {
    match t.kind
    case Name => t.name
    case NameQuestion => t.name + [63]
    case NameAsterisk => t.name + [42]
    case NamePlus => t.name + [43]
    case PoundName => [35] + t.name
    case OpenParen => [40]
    case CloseParen => [41]
    case CloseParenQuestion => [41, 63]
    case CloseParenAsterisk => [41, 42]
    case CloseParenPlus => [41, 43]
    case Or => [124]
    case CommaTok => [44]
    case DeclClose => [62]
    case _ => []
  }

  function Text(l: List<Tok>): bytes {
    match l
    case End => []
    case More(t, rest) => TokText(t) + Text(rest)
  }

  /** Nothing, "?", "*" or "+". */
  function Indicator(o: Occurs): bytes {
    match o
    case Once => []
    case Optional => [63]
    case Repeated => [42]
    case Plus => [43]
  }

  /** cp: a name or a group, with "|" or "," between its particles, and the indicator. */
  function Written(p: Particle): bytes
    decreases p
  {
    match p
    case Leaf(name, o) => name + Indicator(o)
    case Group(choice, first, others, o) =>
      [40] + Written(first) + WrittenRest(if choice then 124 else 44, others) + [41] + Indicator(o)
  }

  function WrittenRest(separator: byte, l: Particles): bytes
    decreases l
  {
    match l
    case Nil => []
    case Cons(head, tail) => [separator] + Written(head) + WrittenRest(separator, tail)
  }

  function WrittenNames(names: List<bytes>): bytes {
    match names
    case End => []
    case More(name, rest) => [124] + name + WrittenNames(rest)
  }

  /** contentspec: EMPTY, ANY, (#PCDATA|a|b)* or a group. */
  function WrittenSpec(spec: ContentSpec): bytes {
    match spec
    case Empty => [69, 77, 80, 84, 89]
    case Any => [65, 78, 89]
    case Mixed(names, star) =>
      [40, 35, 80, 67, 68, 65, 84, 65] + WrittenNames(names) + if star then [41, 42] else [41]
    case Children(group) => Written(group)
  }

  lemma LeafText(name: bytes, o: Occurs)
    ensures TokText(Tok(NameKind(o), name)) == name + Indicator(o)
  {
    assert name + [] == name;
  }

  lemma CloseText(o: Occurs)
    ensures TokText(Mark(CloseKind(o))) == [41] + Indicator(o)
  {
  }

  lemma ConnectorText(choice: bool)
    ensures TokText(Mark(ConnectorKind(choice))) == [if choice then 124 else 44]
  {
  }

  lemma Joins(a: bytes, b: bytes, c: bytes, d: bytes)
    ensures a + (b + (c + d)) == a + b + c + d
  {
  }

  lemma GroupJoins(first: bytes, others: bytes, mark: bytes, k: bytes)
    ensures [40] + (first + (others + ([41] + mark + k))) == [40] + first + others + [41] + mark + k
  {
    Joins([40], first, others, [41] + mark + k);
    Joins([40] + first + others, [41], mark, k);
    var x := [40] + first + others;
    assert x + ([41] + mark + k) == x + [41] + mark + k;
  }

  lemma GroupText(first: List<Tok>, a: bytes, others: bytes, mark: bytes, k: bytes)
    requires Text(first) == a + (others + ([41] + mark + k))
    ensures Text(More(Mark(OpenParen), first)) == [40] + a + others + [41] + mark + k
  {
    GroupJoins(a, others, mark, k);
  }

  /** The tokens of a particle are its text. */
  lemma {:induction false} ShowIsWritten(p: Particle, k: List<Tok>)
    ensures Text(Show(p, k)) == Written(p) + Text(k)
    decreases p
  {
    match p
    case Leaf(name, o) => LeafText(name, o);
    case Group(choice, first, others, o) =>
      var rest := ShowRest(choice, others, o, k);
      ShowIsWritten(first, rest);
      RestIsWritten(choice, others, o, k);
      GroupText(
        Show(first, rest), Written(first), WrittenRest(if choice then 124 else 44, others), Indicator(o), Text(k));
  }

  lemma {:induction false} RestIsWritten(choice: bool, l: Particles, o: Occurs, k: List<Tok>)
    ensures
      Text(ShowRest(choice, l, o, k))
      == WrittenRest(if choice then 124 else 44, l) + ([41] + Indicator(o) + Text(k))
    decreases l
  {
    match l
    case Nil => CloseText(o);
    case Cons(head, tail) =>
      var separator: byte := if choice then 124 else 44;
      var end := [41] + Indicator(o) + Text(k);
      ShowIsWritten(head, ShowRest(choice, tail, o, k));
      RestIsWritten(choice, tail, o, k);
      ConnectorText(choice);
      Joins([separator], Written(head), WrittenRest(separator, tail), end);
  }

  lemma {:induction false} NamesAreWritten(names: List<bytes>, k: List<Tok>)
    ensures Text(ShowNames(names, k)) == WrittenNames(names) + Text(k)
  {
    match names
    case End => assert [] + Text(k) == Text(k);
    case More(name, rest) =>
      NamesAreWritten(rest, k);
      Joins([124], name, WrittenNames(rest), Text(k));
  }

  lemma PcdataText(rest: List<Tok>, r: bytes)
    requires Text(rest) == r
    ensures
      Text(More(Mark(OpenParen), More(Tok(PoundName, ASCII_PCDATA), rest))) == [40, 35, 80, 67, 68, 65, 84, 65] + r
  {
    var pcdata := More(Tok(PoundName, ASCII_PCDATA), rest);
    assert Text(pcdata) == [35] + ASCII_PCDATA + r;
  }

  lemma MixedIsWritten(names: List<bytes>, star: bool, k: List<Tok>)
    ensures Text(ShowSpec(Mixed(names, star), k)) == WrittenSpec(Mixed(names, star)) + Text(k)
  {
    var close: bytes := if star then [41, 42] else [41];
    var end := More(Mark(CloseKind(if star then Repeated else Once)), k);
    assert Text(end) == close + Text(k);
    NamesAreWritten(names, end);
    PcdataText(ShowNames(names, end), WrittenNames(names) + (close + Text(k)));
    Joins([40, 35, 80, 67, 68, 65, 84, 65], WrittenNames(names), close, Text(k));
  }

  /** A declaration that is accepted is a name, a content model in the notation of XML 1.0, and ">". */
  lemma DeclIsWritten(name: bytes, spec: ContentSpec)
    ensures Text(ShowDecl(name, spec)) == name + (WrittenSpec(spec) + [62])
  {
    var close := More(Mark(DeclClose), End);
    assert Text(close) == [62] + Text(End);
    match spec
    case Empty =>
    case Any =>
    case Mixed(names, star) => MixedIsWritten(names, star, close);
    case Children(group) => ShowIsWritten(group, close);
  }

  // ---------------------------------------------------------------- roles

  /** The role of a token inside of a group of particles. */
  function RoleOf(t: Tok): Role {
    match t.kind
    case Name => ContentElement(Once)
    case NameQuestion => ContentElement(Optional)
    case NameAsterisk => ContentElement(Repeated)
    case NamePlus => ContentElement(Plus)
    case OpenParen => GroupOpen
    case CloseParen => GroupClose(Once)
    case CloseParenQuestion => GroupClose(Optional)
    case CloseParenAsterisk => GroupClose(Repeated)
    case CloseParenPlus => GroupClose(Plus)
    case Or => GroupChoice
    case CommaTok => GroupSequence
    case _ => RoleError
  }

  /** The roles of the `n` first tokens. */
  function RolesOf(l: List<Tok>, n: nat): List<Role> {
    match l
    case End => End
    case More(t, rest) => if n == 0 then End else More(RoleOf(t), RolesOf(rest, n - 1))
  }

  /** The number of tokens. */
  function Length(p: Particle): nat
    decreases p
  {
    match p
    case Leaf(_, _) => 1
    case Group(_, first, others, _) => 2 + Length(first) + LengthRest(others)
  }

  function LengthRest(l: Particles): nat
    decreases l
  {
    match l
    case Nil => 0
    case Cons(head, tail) => 1 + Length(head) + LengthRest(tail)
  }

  lemma RolesMore(choice: bool, l: List<Tok>, n: nat)
    ensures RolesOf(More(Mark(ConnectorKind(choice)), l), 1 + n) == More(ConnectorRole(choice), RolesOf(l, n))
  {
  }

  /** The roles of a group are those of its tokens, one by one; `n` tokens follow it. */
  lemma {:induction false} RolesMatch(p: Particle, k: List<Tok>, n: nat)
    ensures RolesOf(Show(p, k), Length(p) + n) == Roles(p, RolesOf(k, n))
    decreases p
  {
    match p
    case Leaf(name, o) =>
    case Group(choice, first, others, o) =>
      var rest := ShowRest(choice, others, o, k);
      RolesMatch(first, rest, 1 + LengthRest(others) + n);
      RestMatches(choice, others, o, k, n);
  }

  lemma {:induction false} RestMatches(choice: bool, l: Particles, o: Occurs, k: List<Tok>, n: nat)
    ensures RolesOf(ShowRest(choice, l, o, k), 1 + LengthRest(l) + n) == RestRoles(choice, l, o, RolesOf(k, n))
    decreases l
  {
    match l
    case Nil =>
    case Cons(head, tail) =>
      var shown := Show(head, ShowRest(choice, tail, o, k));
      RolesMatch(head, ShowRest(choice, tail, o, k), 1 + LengthRest(tail) + n);
      RestMatches(choice, tail, o, k, n);
      RolesMore(choice, shown, Length(head) + 1 + LengthRest(tail) + n);
  }

  /** ContentElement(Once) for each of the names, in front of `k`. */
  function Alternatives(names: List<bytes>, k: List<Role>): List<Role> {
    if names.End? then k else More(ContentElement(Once), Alternatives(names.tail, k))
  }

  lemma {:induction false} NamesAlternate(names: List<bytes>, k: List<Role>)
    ensures NameRoles(names, k) == Alternatives(names, k)
  {
    if names.More? {
      NamesAlternate(names.tail, k);
    }
  }

  /** The roles of a declaration: the name, and EMPTY, ANY, mixed content, or those of a group of particles. */
  lemma DeclRoles(name: bytes, spec: ContentSpec)
    requires IsSpec(spec)
    ensures
      Accept(START, ShowDecl(name, spec))
      == Some(More(ElementName,
                match spec
                case Empty => More(ContentEmpty, End)
                case Any => More(ContentAny, End)
                case Mixed(names, _) =>
                  More(GroupOpen, More(ContentPcdata, Alternatives(names, More(GroupClose(Repeated), End))))
                case Children(group) => RolesOf(Show(group, End), Length(group))))
  {
    DeclAccepted(name, spec);
    match spec
    case Empty =>
    case Any =>
    case Mixed(names, _) => NamesAlternate(names, More(GroupClose(Repeated), End));
    case Children(group) =>
      RolesMatch(group, End, 0);
      assert RolesOf(End, 0) == End;
  }
}
