/**
  Event criteria, their in-memory meaning, and their compilation to a parameterised SQL
  WHERE fragment. The fragment is modelled as the token sequence the builder concatenates,
  and evaluated by a recursive-descent reading of SQL's grammar (AND binds tighter than OR),
  so a missing parenthesis or a parameter index that is off by one changes its value.
*/
module Criteria {

  /** ASCII Unit Separator, the delimiter between a tag's key and its value. */
  const DELIMITER: char := '\U{1F}'

  datatype Tag = Tag(key: string, value: string)

  /** An event as the criteria see it; `body` stands for everything they never look at. */
  datatype Event = Event(id: string, name: string, tags: seq<Tag>, body: string)

  datatype Criteria =
    | Tags(tags: seq<Tag>)
    | AnyTag
    | TypeRestricted(inner: Criteria, types: seq<string>)
    | Either(criteria: seq<Criteria>)

  // ---------------------------------------------------------------------------
  // Meaning
  // ---------------------------------------------------------------------------

  /** What the in-memory store answers: does the event match? */
  predicate Matches(e: Event, c: Criteria) {
    match c
    case Tags(tags) => forall t :: t in tags ==> t in e.tags
    case AnyTag => |e.tags| > 0
    case TypeRestricted(inner, types) => Matches(e, inner) && e.name in types
    case Either(cs) => exists i :: 0 <= i < |cs| && Matches(e, cs[i])
  }

  // ---------------------------------------------------------------------------
  // Tag encoding
  // ---------------------------------------------------------------------------

  function EncodeTag(t: Tag): string {
    t.key + [DELIMITER] + t.value
  }

  /** The index of the first delimiter, or the length when there is none. */
  function DelimiterIndex(s: string): (i: nat)
    ensures i <= |s|
    ensures DELIMITER !in s[..i]
    ensures i < |s| ==> s[i] == DELIMITER
  {
    if s == [] then 0
    else if s[0] == DELIMITER then 0
    else
      var j := DelimiterIndex(s[1..]);
      assert s[..j + 1] == [s[0]] + s[1..][..j];
      j + 1
  }

  /** The row decoder's view of a stored tag: split at the first delimiter. */
  function DecodeTag(s: string): Tag {
    var i := DelimiterIndex(s);
    if i < |s| then Tag(s[..i], s[i + 1..]) else Tag(s, "")
  }

  predicate PlainKey(t: Tag) {
    DELIMITER !in t.key
  }

  /** Encoding a tag and reading it back is the identity exactly when its key is free of the delimiter. */
  lemma TagRoundTrip(t: Tag)
    ensures DecodeTag(EncodeTag(t)) == t <==> PlainKey(t)
  {
    var s := EncodeTag(t);
    var i := DelimiterIndex(s);
    assert forall k :: 0 <= k < |t.key| ==> s[k] == t.key[k];
    assert s[|t.key|] == DELIMITER;
    assert forall k :: 0 <= k < i ==> s[k] == s[..i][k];
    assert i <= |t.key|;
    assert s[..i] == t.key[..i];
    assert i == |t.key| ==> s[i + 1..] == t.value && s[..i] == t.key;
  }

  /** With plain keys, two tags encode alike only when they are the same tag. */
  lemma EncodingIsInjective(a: Tag, b: Tag)
    requires PlainKey(a) && PlainKey(b)
    ensures EncodeTag(a) == EncodeTag(b) <==> a == b
  {
    TagRoundTrip(a);
    TagRoundTrip(b);
  }

  ghost predicate SharesStoredForm(k: string, l: string) {
    exists v, w :: EncodeTag(Tag(k, v)) == EncodeTag(Tag(l, w))
  }

  /** The longer key is the shorter one, the delimiter and anything. */
  predicate Extends(k: string, l: string) {
    k + [DELIMITER] <= l
  }

  /** Tags with different keys can share a stored form if and only if one key extends the other past a delimiter. */
  lemma EncodingCollides(k: string, l: string)
    requires k != l
    ensures SharesStoredForm(k, l) <==> Extends(k, l) || Extends(l, k)
  {
    if v, w :| EncodeTag(Tag(k, v)) == EncodeTag(Tag(l, w)) {
      StoredFormReaches(k, v, l, w);
    }
    if Extends(k, l) {
      ExtendedShares(k, l);
    }
    if Extends(l, k) {
      ExtendedShares(l, k);
      var v, w :| EncodeTag(Tag(l, v)) == EncodeTag(Tag(k, w));
      assert EncodeTag(Tag(k, w)) == EncodeTag(Tag(l, v));
    }
  }

  lemma StoredFormReaches(k: string, v: string, l: string, w: string)
    requires k != l && EncodeTag(Tag(k, v)) == EncodeTag(Tag(l, w))
    ensures Extends(k, l) || Extends(l, k)
  {
    var s := EncodeTag(Tag(k, v));
    assert s[..|k|] == k && s[|k|] == DELIMITER && s[..|l|] == l && s[|l|] == DELIMITER;
    assert |k| < |l| ==> k + [DELIMITER] == s[..|k| + 1] == l[..|k| + 1];
    assert |l| < |k| ==> l + [DELIMITER] == s[..|l| + 1] == k[..|l| + 1];
  }

  lemma ExtendedShares(k: string, l: string)
    requires Extends(k, l)
    ensures SharesStoredForm(k, l)
  {
    var v := l[|k| + 1..] + [DELIMITER];
    assert l == k + [DELIMITER] + l[|k| + 1..];
    assert EncodeTag(Tag(k, v)) == l + [DELIMITER] + "" == EncodeTag(Tag(l, ""));
  }

  function EncodeTags(tags: seq<Tag>): (r: seq<string>)
    ensures |r| == |tags|
    ensures forall i :: 0 <= i < |tags| ==> r[i] == EncodeTag(tags[i])
  {
    seq(|tags|, i requires 0 <= i < |tags| => EncodeTag(tags[i]))
  }

  // ---------------------------------------------------------------------------
  // The SQL fragment and how a database reads it
  // ---------------------------------------------------------------------------

  datatype Token =
    | LParen
    | RParen
    | And
    | Or
    | True
    | HasTags                      // cardinality(tags) > 0
    | TagsContain(param: int)      // tags @> $n::text[]
    | TypeIn(param: int)           // type = ANY($n::text[])
    | PositionAbove(param: int)    // sequence_position > $n

  datatype Param = Texts(texts: seq<string>) | Position(position: int)

  /** A stored row: tags are kept in their encoded form. */
  datatype Row = Row(position: int, name: string, tags: seq<string>)

  function RowOf(position: int, e: Event): Row {
    Row(position, e.name, EncodeTags(e.tags))
  }

  /** The value of a parsed prefix and what follows it, or a syntax or binding error. */
  datatype Parsed = Bad | Good(value: bool, rest: seq<Token>)

  predicate TextsAt(params: seq<Param>, n: int) {
    1 <= n <= |params| && params[n - 1].Texts?
  }

  function EvalOr(ts: seq<Token>, params: seq<Param>, row: Row): (r: Parsed)
    ensures r.Good? ==> |r.rest| < |ts|
    decreases |ts|, 2
  {
    match EvalAnd(ts, params, row)
    case Bad => Bad
    case Good(v, rest) =>
      if rest != [] && rest[0] == Or then
        match EvalOr(rest[1..], params, row)
        case Bad => Bad
        case Good(w, rest') => Good(v || w, rest')
      else
        Good(v, rest)
  }

  function EvalAnd(ts: seq<Token>, params: seq<Param>, row: Row): (r: Parsed)
    ensures r.Good? ==> |r.rest| < |ts|
    decreases |ts|, 1
  {
    match EvalAtom(ts, params, row)
    case Bad => Bad
    case Good(v, rest) =>
      if rest != [] && rest[0] == And then
        match EvalAnd(rest[1..], params, row)
        case Bad => Bad
        case Good(w, rest') => Good(v && w, rest')
      else
        Good(v, rest)
  }

  function EvalAtom(ts: seq<Token>, params: seq<Param>, row: Row): (r: Parsed)
    ensures r.Good? ==> |r.rest| < |ts|
    decreases |ts|, 0
  {
    if ts == [] then Bad
    else match ts[0]
    case LParen =>
      (match EvalOr(ts[1..], params, row)
       case Bad => Bad
       case Good(v, rest) => if rest != [] && rest[0] == RParen then Good(v, rest[1..]) else Bad)
    case True => Good(true, ts[1..])
    case HasTags => Good(|row.tags| > 0, ts[1..])
    case TagsContain(n) =>
      if TextsAt(params, n) then Good(forall t :: t in params[n - 1].texts ==> t in row.tags, ts[1..]) else Bad
    case TypeIn(n) =>
      if TextsAt(params, n) then Good(row.name in params[n - 1].texts, ts[1..]) else Bad
    case PositionAbove(n) =>
      if 1 <= n <= |params| && params[n - 1].Position?
      then Good(row.position > params[n - 1].position, ts[1..]) else Bad
    case RParen => Bad
    case And => Bad
    case Or => Bad
  }

  datatype Answer = SqlError | Value(value: bool)

  /** What `WHERE ts` says about one row, or that the statement is refused. */
  function Where(ts: seq<Token>, params: seq<Param>, row: Row): Answer {
    match EvalOr(ts, params, row)
    case Bad => SqlError
    case Good(v, rest) => if rest == [] then Value(v) else SqlError
  }

  // ---------------------------------------------------------------------------
  // The builder
  // ---------------------------------------------------------------------------

  datatype Built = Built(where: seq<Token>, params: seq<Param>, next: int)

  function Parenthesised(ts: seq<Token>): seq<Token> {
    [LParen] + ts + [RParen]
  }

  /** The fragment for `c` with its first parameter numbered `start`. */
  function Build(c: Criteria, start: int): Built
    decreases c, 0
  {
    match c
    case AnyTag => Built([HasTags], [], start)
    case Tags(tags) =>
      if tags == [] then Built([True], [], start)
      else Built([TagsContain(start)], [Texts(EncodeTags(tags))], start + 1)
    case TypeRestricted(inner, types) =>
      var b := Build(inner, start);
      Built(Parenthesised(b.where) + [And, TypeIn(b.next)], b.params + [Texts(types)], b.next + 1)
    case Either(cs) => BuildEither(cs, start)
  }

  function BuildEither(cs: seq<Criteria>, start: int): Built
    decreases cs, 1
  {
    if cs == [] then Built([], [], start)
    else
      var b := Build(cs[0], start);
      var r := BuildEither(cs[1..], b.next);
      Built(Parenthesised(b.where) + (if |cs| == 1 then [] else [Or] + r.where), b.params + r.params, r.next)
  }

  /** `parts.join(" OR ")` over parts that are already parenthesised. */
  function JoinOr(parts: seq<seq<Token>>): seq<Token> {
    if parts == [] then []
    else if |parts| == 1 then parts[0]
    else parts[0] + [Or] + JoinOr(parts[1..])
  }

  /** The parts of an `either`, one per alternative, and the parameters they take together. */
  function EitherParts(cs: seq<Criteria>, start: int): seq<seq<Token>> {
    if cs == [] then []
    else
      var b := Build(cs[0], start);
      [Parenthesised(b.where)] + EitherParts(cs[1..], b.next)
  }

  lemma {:induction false} EitherIsJoined(cs: seq<Criteria>, start: int)
    ensures |EitherParts(cs, start)| == |cs|
    ensures BuildEither(cs, start).where == JoinOr(EitherParts(cs, start))
  {
    if cs != [] {
      EitherIsJoined(cs[1..], Build(cs[0], start).next);
      assert EitherParts(cs, start)[1..] == EitherParts(cs[1..], Build(cs[0], start).next);
    }
  }

  lemma EitherStep(cs: seq<Criteria>, i: nat, next: int, parts: seq<seq<Token>>, params: seq<Param>)
    requires i < |cs|
    ensures var b := Build(cs[i], next);
            && parts + EitherParts(cs[i..], next) == parts + [Parenthesised(b.where)] + EitherParts(cs[i + 1..], b.next)
            && params + BuildEither(cs[i..], next).params == params + b.params + BuildEither(cs[i + 1..], b.next).params
            && BuildEither(cs[i..], next).next == BuildEither(cs[i + 1..], b.next).next
  {
    assert cs[i..][0] == cs[i] && cs[i..][1..] == cs[i + 1..];
  }

  /** Builds fragment and parameters together, by recursion over the tree and a loop over each `either`. */
  method BuildCriteriaWhere(criteria: Criteria, startIndex: int) returns (built: Built)
    ensures built == Build(criteria, startIndex)
    decreases criteria
  {
    match criteria {
      case AnyTag =>
        built := Built([HasTags], [], startIndex);
      case Tags(tags) =>
        if |tags| == 0 {
          built := Built([True], [], startIndex);
        } else {
          built := Built([TagsContain(startIndex)], [Texts(EncodeTags(tags))], startIndex + 1);
        }
      case TypeRestricted(inner, types) =>
        var b := BuildCriteriaWhere(inner, startIndex);
        var typeParam := b.next;
        built := Built(Parenthesised(b.where) + [And, TypeIn(typeParam)], b.params + [Texts(types)], typeParam + 1);
      case Either(cs) =>
        var parts: seq<seq<Token>> := [];
        var params: seq<Param> := [];
        var next := startIndex;
        for i := 0 to |cs|
          invariant EitherParts(cs, startIndex) == parts + EitherParts(cs[i..], next)
          invariant BuildEither(cs, startIndex).params == params + BuildEither(cs[i..], next).params
          invariant BuildEither(cs, startIndex).next == BuildEither(cs[i..], next).next
        {
          var sub := BuildCriteriaWhere(cs[i], next);
          EitherStep(cs, i, next, parts, params);
          parts := parts + [Parenthesised(sub.where)];
          params := params + sub.params;
          next := sub.next;
        }
        EitherIsJoined(cs, startIndex);
        assert parts + [] == parts && params + [] == params;
        built := Built(JoinOr(parts), params, next);
    }
  }

  // ---------------------------------------------------------------------------
  // Compilation preserves meaning
  // ---------------------------------------------------------------------------

  /** No `either` in the tree is empty; `compileQuery` never produces one. */
  predicate NoEmptyEither(c: Criteria) {
    match c
    case TypeRestricted(inner, _) => NoEmptyEither(inner)
    case Either(cs) => cs != [] && forall i :: 0 <= i < |cs| ==> NoEmptyEither(cs[i])
    case _ => true
  }

  /** The criteria read against the stored, encoded tags. */
  predicate MatchesRow(row: Row, c: Criteria) {
    match c
    case Tags(tags) => forall t :: t in EncodeTags(tags) ==> t in row.tags
    case AnyTag => |row.tags| > 0
    case TypeRestricted(inner, types) => MatchesRow(row, inner) && row.name in types
    case Either(cs) => exists i :: 0 <= i < |cs| && MatchesRow(row, cs[i])
  }

  /** `built`'s own parameters sit in `params` at the indices it was numbered for. */
  predicate Bound(built: Built, start: int, params: seq<Param>) {
    1 <= start <= built.next <= |params| + 1 && params[start - 1..built.next - 1] == built.params
  }

  /** Parameters fill exactly the indices from `start` up to `next - 1`. */
  lemma {:induction false} ParametersAreContiguous(c: Criteria, start: int)
    ensures Build(c, start).next == start + |Build(c, start).params|
    decreases c, 0
  {
    match c {
      case TypeRestricted(inner, _) => ParametersAreContiguous(inner, start);
      case Either(cs) => EitherParametersAreContiguous(cs, start);
      case _ =>
    }
  }

  lemma {:induction false} EitherParametersAreContiguous(cs: seq<Criteria>, start: int)
    ensures BuildEither(cs, start).next == start + |BuildEither(cs, start).params|
    decreases cs, 1
  {
    if cs != [] {
      ParametersAreContiguous(cs[0], start);
      EitherParametersAreContiguous(cs[1..], Build(cs[0], start).next);
    }
  }

  /** Binding a concatenation binds both halves. */
  lemma BoundSplits(params: seq<Param>, start: int, mid: int, next: int, left: seq<Param>, right: seq<Param>)
    requires 1 <= start <= mid <= next <= |params| + 1
    requires mid == start + |left| && next == mid + |right|
    requires params[start - 1..next - 1] == left + right
    ensures params[start - 1..mid - 1] == left && params[mid - 1..next - 1] == right
  {
    var whole := params[start - 1..next - 1];
    assert params[start - 1..mid - 1] == whole[..|left|] == left;
    assert params[mid - 1..next - 1] == whole[|left|..] == right;
  }

  predicate Closes(rest: seq<Token>) {
    rest == [] || rest[0] == RParen
  }

  /** An atom in front of a closing parenthesis or the end is a whole disjunction. */
  lemma AtomStandsAlone(ts: seq<Token>, params: seq<Param>, row: Row)
    ensures var atom := EvalAtom(ts, params, row);
            atom.Good? && Closes(atom.rest) ==> EvalOr(ts, params, row) == atom
    ensures EvalAtom(ts, params, row).Bad? ==> EvalOr(ts, params, row).Bad?
  {
    var atom := EvalAtom(ts, params, row);
    if atom.Good? && Closes(atom.rest) {
      assert EvalAnd(ts, params, row) == atom;
    }
  }

  /** An atom in front of OR is the first disjunct. */
  lemma AtomBeforeOr(ts: seq<Token>, params: seq<Param>, row: Row)
    requires EvalAtom(ts, params, row).Good?
    requires EvalAtom(ts, params, row).rest != [] && EvalAtom(ts, params, row).rest[0] == Or
    ensures var atom := EvalAtom(ts, params, row);
            var more := EvalOr(atom.rest[1..], params, row);
            EvalOr(ts, params, row) == if more.Good? then Good(atom.value || more.value, more.rest) else Bad
  {
    assert EvalAnd(ts, params, row) == EvalAtom(ts, params, row);
  }

  /** An atom followed by AND and the type test. */
  lemma TypeOperand(ts: seq<Token>, n: int, types: seq<string>, params: seq<Param>, row: Row, rest: seq<Token>)
    requires Closes(rest) && 1 <= n <= |params| && params[n - 1] == Texts(types)
    requires EvalAtom(ts, params, row).Good? ==> EvalAtom(ts, params, row).rest == [And, TypeIn(n)] + rest
    ensures EvalOr(ts, params, row) ==
            if EvalAtom(ts, params, row).Good? then Good(EvalAtom(ts, params, row).value && row.name in types, rest) else Bad
  {
    var after := [And, TypeIn(n)] + rest;
    assert after[1..] == [TypeIn(n)] + rest && ([TypeIn(n)] + rest)[1..] == rest;
    assert EvalAtom(after[1..], params, row) == Good(row.name in types, rest);
    assert EvalAnd(after[1..], params, row) == Good(row.name in types, rest);
    if EvalAtom(ts, params, row).Good? {
      hide EvalAtom;
      assert EvalAnd(ts, params, row) == Good(EvalAtom(ts, params, row).value && row.name in types, rest);
    }
  }

  /** A parenthesised operand: an atom of value `v`, or an error, whatever follows it. */
  lemma ParenthesisedAtom(where: seq<Token>, after: seq<Token>, params: seq<Param>, row: Row)
    ensures var inner := EvalOr(where + ([RParen] + after), params, row);
            EvalAtom(Parenthesised(where) + after, params, row) ==
              if inner.Good? && inner.rest != [] && inner.rest[0] == RParen then Good(inner.value, inner.rest[1..]) else Bad
  {
    var ts := Parenthesised(where) + after;
    assert ts[0] == LParen && ts[1..] == where + ([RParen] + after);
  }

  /**
    The fragment, read by the SQL grammar in front of a closing parenthesis or the end,
    has the value of the criteria on the row; with an empty `either` anywhere in the tree
    it does not parse.
  */
  lemma {:induction false} BuildMeans(c: Criteria, start: int, params: seq<Param>, row: Row, rest: seq<Token>)
    requires Bound(Build(c, start), start, params) && Closes(rest)
    ensures EvalOr(Build(c, start).where + rest, params, row) ==
            if NoEmptyEither(c) then Good(MatchesRow(row, c), rest) else Bad
    decreases c, 0
  {
    var b := Build(c, start);
    var ts := b.where + rest;
    match c {
      case AnyTag =>
        assert ts[0] == HasTags && ts[1..] == rest;
        AtomStandsAlone(ts, params, row);
      case Tags(tags) =>
        assert ts[0] == b.where[0] && ts[1..] == rest;
        if tags != [] {
          assert params[start - 1] == params[start - 1..b.next - 1][0] == b.params[0];
        }
        AtomStandsAlone(ts, params, row);
      case TypeRestricted(inner, types) =>
        var bi := Build(inner, start);
        ParametersAreContiguous(inner, start);
        BoundSplits(params, start, bi.next, b.next, bi.params, [Texts(types)]);
        assert params[bi.next - 1] == Texts(types);
        var after := [And, TypeIn(bi.next)] + rest;
        BuildMeans(inner, start, params, row, [RParen] + after);
        assert ts == Parenthesised(bi.where) + after;
        hide Build, EvalOr, EvalAnd, EvalAtom;
        ParenthesisedAtom(bi.where, after, params, row);
        assert ([RParen] + after)[1..] == after;
        TypeOperand(ts, bi.next, types, params, row, rest);
      case Either(cs) =>
        BuildEitherMeans(cs, start, params, row, rest);
    }
  }

  /** What follows the first alternative of an `either` in front of `rest`. */
  function AfterFirst(cs: seq<Criteria>, start: int, rest: seq<Token>): seq<Token>
    requires cs != []
  {
    if |cs| == 1 then rest else [Or] + (BuildEither(cs[1..], Build(cs[0], start).next).where + rest)
  }

  lemma EitherBinds(cs: seq<Criteria>, start: int, params: seq<Param>)
    requires cs != [] && Bound(BuildEither(cs, start), start, params)
    ensures Bound(Build(cs[0], start), start, params)
    ensures Bound(BuildEither(cs[1..], Build(cs[0], start).next), Build(cs[0], start).next, params)
  {
    var first := Build(cs[0], start);
    var more := BuildEither(cs[1..], first.next);
    ParametersAreContiguous(cs[0], start);
    EitherParametersAreContiguous(cs[1..], first.next);
    assert BuildEither(cs, start).params == first.params + more.params && BuildEither(cs, start).next == more.next;
    hide Build, BuildEither;
    BoundSplits(params, start, first.next, more.next, first.params, more.params);
  }

  lemma Associates(a: seq<Token>, b: seq<Token>, c: seq<Token>)
    ensures (a + b) + c == a + (b + c)
  {
  }

  lemma EitherShape(cs: seq<Criteria>, start: int, rest: seq<Token>)
    requires cs != []
    ensures BuildEither(cs, start).where + rest == Parenthesised(Build(cs[0], start).where) + AfterFirst(cs, start, rest)
  {
    var atom := Parenthesised(Build(cs[0], start).where);
    var more := BuildEither(cs[1..], Build(cs[0], start).next);
    assert BuildEither(cs, start).where == atom + (if |cs| == 1 then [] else [Or] + more.where);
    hide Build, BuildEither, Parenthesised;
    if |cs| == 1 {
      assert atom + [] == atom;
    } else {
      Associates(atom, [Or] + more.where, rest);
      Associates([Or], more.where, rest);
    }
  }

  lemma {:induction false} BuildEitherMeans(cs: seq<Criteria>, start: int, params: seq<Param>, row: Row, rest: seq<Token>)
    requires Bound(BuildEither(cs, start), start, params) && Closes(rest)
    ensures EvalOr(BuildEither(cs, start).where + rest, params, row) ==
            if NoEmptyEither(Either(cs)) then Good(MatchesRow(row, Either(cs)), rest) else Bad
    decreases cs, 1
  {
    if cs == [] {
      assert BuildEither(cs, start).where + rest == rest;
      AtomStandsAlone(rest, params, row);
    } else {
      EitherShape(cs, start, rest);
      EitherBinds(cs, start, params);
      hide EvalOr, EvalAnd, EvalAtom, MatchesRow, NoEmptyEither, Build, BuildEither, Bound;
      var first := Build(cs[0], start);
      var after := AfterFirst(cs, start, rest);
      var ts := Parenthesised(first.where) + after;
      BuildMeans(cs[0], start, params, row, [RParen] + after);
      ParenthesisedAtom(first.where, after, params, row);
      assert ([RParen] + after)[1..] == after;
      EitherUnfolds(row, cs);
      AtomStandsAlone(ts, params, row);
      if |cs| > 1 {
        assert after[1..] == BuildEither(cs[1..], first.next).where + rest;
        BuildEitherMeans(cs[1..], first.next, params, row, rest);
        if NoEmptyEither(cs[0]) {
          AtomBeforeOr(ts, params, row);
        }
      }
    }
  }

  lemma EitherUnfolds(row: Row, cs: seq<Criteria>)
    requires cs != []
    ensures MatchesRow(row, Either(cs)) <==> MatchesRow(row, cs[0]) || (|cs| > 1 && MatchesRow(row, Either(cs[1..])))
    ensures NoEmptyEither(Either(cs)) <==> NoEmptyEither(cs[0]) && (|cs| == 1 || NoEmptyEither(Either(cs[1..])))
  {
    assert forall i :: 1 <= i < |cs| ==> cs[i] == cs[1..][i - 1];
    assert forall i :: 0 <= i < |cs[1..]| ==> cs[1..][i] == cs[i + 1];
  }

  /** Every tag key that plays a part is free of the delimiter. */
  predicate PlainKeys(c: Criteria) {
    match c
    case Tags(tags) => forall t :: t in tags ==> PlainKey(t)
    case AnyTag => true
    case TypeRestricted(inner, _) => PlainKeys(inner)
    case Either(cs) => forall i :: 0 <= i < |cs| ==> PlainKeys(cs[i])
  }

  predicate PlainEvent(e: Event) {
    forall t :: t in e.tags ==> PlainKey(t)
  }

  lemma {:induction false} EncodedMatch(e: Event, position: int, c: Criteria)
    requires PlainKeys(c) && PlainEvent(e)
    ensures MatchesRow(RowOf(position, e), c) == Matches(e, c)
  {
    match c {
      case Tags(tags) =>
        var row := RowOf(position, e);
        forall i | 0 <= i < |tags|
          ensures EncodeTag(tags[i]) in row.tags <==> tags[i] in e.tags
        {
          forall j | 0 <= j < |e.tags| ensures row.tags[j] == EncodeTag(tags[i]) <==> e.tags[j] == tags[i] {
            assert e.tags[j] in e.tags;
            EncodingIsInjective(tags[i], e.tags[j]);
          }
        }
        assert forall i :: 0 <= i < |tags| ==> EncodeTags(tags)[i] in EncodeTags(tags);
        assert forall i :: 0 <= i < |tags| ==> tags[i] in tags;
      case AnyTag =>
      case TypeRestricted(inner, _) => EncodedMatch(e, position, inner);
      case Either(cs) =>
        forall i | 0 <= i < |cs| ensures MatchesRow(RowOf(position, e), cs[i]) == Matches(e, cs[i]) {
          EncodedMatch(e, position, cs[i]);
        }
    }
  }

  /** The database and the in-memory store agree about one tag on these events. */
  ghost predicate Agree(t: Tag, plain: bool) {
    forall e: Event :: (plain ==> PlainEvent(e)) ==> MatchesRow(RowOf(0, e), Tags([t])) == Matches(e, Tags([t]))
  }

  lemma OneTag(t: Tag, e: Event)
    ensures MatchesRow(RowOf(0, e), Tags([t])) <==> exists u :: u in e.tags && EncodeTag(u) == EncodeTag(t)
    ensures Matches(e, Tags([t])) <==> t in e.tags
  {
    var stored := EncodeTags(e.tags);
    assert EncodeTags([t]) == [EncodeTag(t)];
    hide EncodeTag;
    assert forall i :: 0 <= i < |stored| ==> stored[i] == EncodeTag(e.tags[i]);
    assert forall i :: 0 <= i < |e.tags| ==> EncodeTag(e.tags[i]) in stored;
    assert t in [t] && EncodeTag(t) in [EncodeTag(t)];
  }

  /** Some other tag is stored in the same form. */
  lemma Confused(t: Tag, u: Tag, plain: bool)
    requires u != t && EncodeTag(u) == EncodeTag(t) && (plain ==> PlainKey(u))
    ensures !Agree(t, plain)
  {
    var e := Event("", "", [u], "");
    OneTag(t, e);
    hide EncodeTag, Matches, MatchesRow, RowOf;
    assert u in e.tags && t !in e.tags;
    assert PlainKey(u) ==> PlainEvent(e);
  }

  lemma NotConfused(t: Tag, plain: bool)
    requires forall u :: EncodeTag(u) == EncodeTag(t) && (plain ==> PlainKey(u)) ==> u == t
    ensures Agree(t, plain)
  {
    hide EncodeTag, Matches, MatchesRow, RowOf;
    forall e: Event | plain ==> PlainEvent(e)
      ensures MatchesRow(RowOf(0, e), Tags([t])) == Matches(e, Tags([t]))
    {
      OneTag(t, e);
    }
  }

  /**
    Asking for a tag means the same in both stores if and only if its key is plain, as long as
    events have plain keys; on all events, if and only if its value is free of the delimiter too.
  */
  lemma AgreeExactly(t: Tag)
    ensures Agree(t, true) <==> PlainKey(t)
    ensures Agree(t, false) <==> PlainKey(t) && DELIMITER !in t.value
  {
    hide Agree;
    TagRoundTrip(t);
    var d := DecodeTag(EncodeTag(t));
    DecodedIsStoredAlike(t);
    if !PlainKey(t) {
      Confused(t, d, true);
      Confused(t, d, false);
    } else {
      forall u | EncodeTag(u) == EncodeTag(t) && PlainKey(u)
        ensures u == t
      {
        EncodingIsInjective(t, u);
      }
      NotConfused(t, true);
      if DELIMITER in t.value {
        var u := SplitLater(t);
        Confused(t, u, false);
      } else {
        forall u | EncodeTag(u) == EncodeTag(t)
          ensures u == t
        {
          OneDelimiter(t, u);
        }
        NotConfused(t, false);
      }
    }
  }

  lemma DecodedIsStoredAlike(t: Tag)
    ensures var d := DecodeTag(EncodeTag(t)); PlainKey(d) && EncodeTag(d) == EncodeTag(t)
  {
    var s := EncodeTag(t);
    var i := DelimiterIndex(s);
    assert s[|t.key|] == DELIMITER;
    assert forall k :: 0 <= k < i ==> s[k] == s[..i][k];
    assert i < |s|;
    assert s == s[..i] + [DELIMITER] + s[i + 1..];
  }

  lemma SplitLater(t: Tag) returns (u: Tag)
    requires DELIMITER in t.value
    ensures u != t && EncodeTag(u) == EncodeTag(t)
  {
    var i :| 0 <= i < |t.value| && t.value[i] == DELIMITER;
    u := Tag(t.key + [DELIMITER] + t.value[..i], t.value[i + 1..]);
    assert t.value == t.value[..i] + [DELIMITER] + t.value[i + 1..];
    assert |u.key| > |t.key|;
  }

  lemma OneDelimiter(t: Tag, u: Tag)
    requires PlainKey(t) && DELIMITER !in t.value && EncodeTag(u) == EncodeTag(t)
    ensures u == t
  {
    var s, n := EncodeTag(t), |u.key|;
    forall k | 0 <= k < |s| && k != |t.key|
      ensures s[k] != DELIMITER
    {
      assert s[k] in t.key || s[k] in t.value;
    }
    assert s == EncodeTag(u) && s[n] == DELIMITER;
    assert s[..n] == t.key == u.key && s[n + 1..] == t.value == u.value;
  }

  /**
    Compilation preserves meaning: the generated WHERE with its parameters, numbered from 1,
    selects the events the criteria match — and the statement is refused exactly when some
    `either` in the tree is empty.
  */
  lemma CompilationPreservesMeaning(c: Criteria, e: Event, position: int)
    requires PlainKeys(c) && PlainEvent(e)
    ensures Where(Build(c, 1).where, Build(c, 1).params, RowOf(position, e)) ==
            if NoEmptyEither(c) then Value(Matches(e, c)) else SqlError
  {
    var b := Build(c, 1);
    ParametersAreContiguous(c, 1);
    assert b.params[0..b.next - 1] == b.params;
    BuildMeans(c, 1, b.params, RowOf(position, e), []);
    assert b.where + [] == b.where;
    EncodedMatch(e, position, c);
  }

  // ---------------------------------------------------------------------------
  // The conflict check over several reads
  // ---------------------------------------------------------------------------

  /** One read an append condition covers: its criteria and the marker it returned. */
  datatype Read = Read(criteria: Criteria, marker: int)

  /** The clause of one read, its marker numbered `n` and its criteria from `n + 1`. */
  function Clause(read: Read, n: int): seq<Token> {
    Parenthesised([PositionAbove(n), And] + Parenthesised(Build(read.criteria, n + 1).where))
  }

  function ClauseParams(read: Read, n: int): seq<Param> {
    [Position(read.marker)] + Build(read.criteria, n + 1).params
  }

  function ConflictClauses(checks: seq<Read>, n: int): seq<seq<Token>> {
    if checks == [] then []
    else [Clause(checks[0], n)] + ConflictClauses(checks[1..], Build(checks[0].criteria, n + 1).next)
  }

  function ConflictParams(checks: seq<Read>, n: int): seq<Param> {
    if checks == [] then []
    else ClauseParams(checks[0], n) + ConflictParams(checks[1..], Build(checks[0].criteria, n + 1).next)
  }

  lemma ClauseStep(checks: seq<Read>, i: nat, clauses: seq<seq<Token>>, params: seq<Param>)
    requires i < |checks|
    ensures var n := |params| + 1;
            var b := Build(checks[i].criteria, n + 1);
            var params' := params + [Position(checks[i].marker)] + b.params;
            && |params'| + 1 == b.next
            && clauses + ConflictClauses(checks[i..], n) ==
               clauses + [Clause(checks[i], n)] + ConflictClauses(checks[i + 1..], b.next)
            && params + ConflictParams(checks[i..], n) == params' + ConflictParams(checks[i + 1..], b.next)
  {
    ParametersAreContiguous(checks[i].criteria, |params| + 2);
    assert checks[i..][0] == checks[i] && checks[i..][1..] == checks[i + 1..];
  }

  /** The check's WHERE and its parameters, built read by read as the append path does. */
  method BuildConflictCheck(checks: seq<Read>) returns (where: seq<Token>, params: seq<Param>)
    ensures where == JoinOr(ConflictClauses(checks, 1))
    ensures params == ConflictParams(checks, 1)
  {
    var clauses: seq<seq<Token>> := [];
    params := [];
    for i := 0 to |checks|
      invariant ConflictClauses(checks, 1) == clauses + ConflictClauses(checks[i..], |params| + 1)
      invariant ConflictParams(checks, 1) == params + ConflictParams(checks[i..], |params| + 1)
    {
      var read := checks[i];
      ClauseStep(checks, i, clauses, params);
      params := params + [Position(read.marker)];
      var built := BuildCriteriaWhere(read.criteria, |params| + 1);
      clauses := clauses + [Parenthesised([PositionAbove(|params|), And] + Parenthesised(built.where))];
      params := params + built.params;
    }
    assert clauses + [] == clauses && params + [] == params;
    where := JoinOr(clauses);
  }

  /** Some read's own criteria match the row above that read's own marker. */
  predicate AboveSomeMarker(checks: seq<Read>, position: int, e: Event) {
    exists i :: 0 <= i < |checks| && position > checks[i].marker && Matches(e, checks[i].criteria)
  }

  predicate ReadsAreSound(checks: seq<Read>) {
    forall i :: 0 <= i < |checks| ==> NoEmptyEither(checks[i].criteria) && PlainKeys(checks[i].criteria)
  }

  lemma OneConjunction(ts: seq<Token>, params: seq<Param>, row: Row)
    requires var r := EvalAnd(ts, params, row); r.Good? && r.rest != [] && r.rest[0] == RParen
    ensures EvalOr(ts, params, row) == EvalAnd(ts, params, row)
  {
  }

  lemma {:induction false} ClauseMeans(read: Read, n: int, params: seq<Param>, row: Row, after: seq<Token>)
    requires NoEmptyEither(read.criteria)
    requires 1 <= n && Build(read.criteria, n + 1).next <= |params| + 1
    requires Build(read.criteria, n + 1).next == n + |ClauseParams(read, n)|
    requires params[n - 1..Build(read.criteria, n + 1).next - 1] == ClauseParams(read, n)
    ensures EvalAtom(Clause(read, n) + after, params, row) ==
            Good(row.position > read.marker && MatchesRow(row, read.criteria), after)
  {
    var b := Build(read.criteria, n + 1);
    hide Build, MatchesRow, NoEmptyEither, EvalOr;
    BoundSplits(params, n, n + 1, b.next, [Position(read.marker)], b.params);
    assert params[n - 1] == params[n - 1..n][0] == Position(read.marker);
    var inside := [PositionAbove(n), And] + Parenthesised(b.where);
    var tail := Parenthesised(b.where) + ([RParen] + after);
    var body := inside + ([RParen] + after);
    assert body == [PositionAbove(n), And] + tail by {
      Associates([PositionAbove(n), And], Parenthesised(b.where), [RParen] + after);
    }
    BuildMeans(read.criteria, n + 1, params, row, [RParen] + ([RParen] + after));
    ParenthesisedAtom(b.where, [RParen] + after, params, row);
    assert ([RParen] + ([RParen] + after))[1..] == [RParen] + after;
    assert EvalAnd(tail, params, row) == Good(MatchesRow(row, read.criteria), [RParen] + after);
    assert body[0] == PositionAbove(n) && body[1..] == [And] + tail;
    assert ([And] + tail)[1..] == tail;
    assert EvalAnd(body, params, row) ==
           Good(row.position > read.marker && MatchesRow(row, read.criteria), [RParen] + after);
    assert ([RParen] + after)[1..] == after;
    OneConjunction(tail, params, row);
    OneConjunction(body, params, row);
    ParenthesisedAtom(inside, after, params, row);
  }

  lemma {:induction false} ClausesMean(checks: seq<Read>, n: int, params: seq<Param>, position: int, e: Event)
    requires checks != [] && ReadsAreSound(checks) && PlainEvent(e)
    requires 1 <= n && n + |ConflictParams(checks, n)| == |params| + 1
    requires params[n - 1..] == ConflictParams(checks, n)
    ensures EvalOr(JoinOr(ConflictClauses(checks, n)), params, RowOf(position, e)) ==
            Good(AboveSomeMarker(checks, position, e), [])
  {
    var row := RowOf(position, e);
    assert row.position == position;
    hide EvalOr, EvalAnd, EvalAtom, MatchesRow, Matches, NoEmptyEither, PlainKeys, PlainEvent, Build, RowOf, Clause;
    hide ConflictClauses, ConflictParams, ClauseParams, JoinOr, AboveSomeMarker;
    var read, more := checks[0], checks[1..];
    var next := Build(read.criteria, n + 1).next;
    EncodedMatch(e, position, read.criteria);
    FirstClause(checks, n);
    FirstMarker(checks, position, e);
    BoundSplits(params, n, next, |params| + 1, ClauseParams(read, n), ConflictParams(more, next));
    var clauses := ConflictClauses(more, next);
    if more == [] {
      ClauseMeans(read, n, params, row, []);
      assert Clause(read, n) + [] == Clause(read, n);
      AtomStandsAlone(Clause(read, n), params, row);
      assert !AboveSomeMarker(more, position, e) by { NoMarker(position, e); }
    } else {
      var after := [Or] + JoinOr(clauses);
      ClauseMeans(read, n, params, row, after);
      assert after[1..] == JoinOr(clauses);
      assert params[next - 1..|params|] == params[next - 1..];
      assert ReadsAreSound(more) by {
        assert forall i :: 0 <= i < |more| ==> more[i] == checks[i + 1];
      }
      ClausesMean(more, next, params, position, e);
      AtomBeforeOr(Clause(read, n) + after, params, row);
      assert JoinOr(ConflictClauses(checks, n)) == Clause(read, n) + after;
      assert EvalOr(JoinOr(clauses), params, row) == Good(AboveSomeMarker(more, position, e), []);
    }
  }

  /** The first read's clause and parameters, and what follows them. */
  lemma FirstClause(checks: seq<Read>, n: int)
    requires checks != []
    ensures var next := Build(checks[0].criteria, n + 1).next;
            var clauses := ConflictClauses(checks[1..], next);
            && next == n + |ClauseParams(checks[0], n)|
            && ConflictParams(checks, n) == ClauseParams(checks[0], n) + ConflictParams(checks[1..], next)
            && |clauses| == |checks| - 1
            && JoinOr(ConflictClauses(checks, n)) == if |checks| == 1 then Clause(checks[0], n) else Clause(checks[0], n) + ([Or] + JoinOr(clauses))
  {
    ParametersAreContiguous(checks[0].criteria, n + 1);
    var next := Build(checks[0].criteria, n + 1).next;
    var first, clauses := Clause(checks[0], n), ConflictClauses(checks[1..], next);
    OneClauseEach(checks[1..], next);
    assert ConflictClauses(checks, n) == [first] + clauses;
    hide Build, Clause;
    assert ([first] + clauses)[1..] == clauses;
    if |checks| > 1 {
      Associates(first, [Or], JoinOr(clauses));
    }
  }

  lemma {:induction false} OneClauseEach(checks: seq<Read>, n: int)
    ensures |ConflictClauses(checks, n)| == |checks|
    decreases |checks|
  {
    hide Build, Clause;
    if checks != [] {
      OneClauseEach(checks[1..], Build(checks[0].criteria, n + 1).next);
    }
  }

  lemma FirstMarker(checks: seq<Read>, position: int, e: Event)
    requires checks != []
    ensures AboveSomeMarker(checks, position, e) <==>
            (position > checks[0].marker && Matches(e, checks[0].criteria)) || AboveSomeMarker(checks[1..], position, e)
  {
    hide Matches;
    var more := checks[1..];
    assert forall i :: 0 <= i < |more| ==> more[i] == checks[i + 1];
    assert forall i :: 1 <= i < |checks| ==> checks[i] == more[i - 1];
  }

  lemma NoMarker(position: int, e: Event)
    ensures !AboveSomeMarker([], position, e)
  {
  }

  /** The check selects exactly the rows that lie above some read's own marker and match that read. */
  lemma ConflictCheckMeans(checks: seq<Read>, position: int, e: Event)
    requires checks != [] && ReadsAreSound(checks) && PlainEvent(e)
    ensures Where(JoinOr(ConflictClauses(checks, 1)), ConflictParams(checks, 1), RowOf(position, e)) ==
            Value(AboveSomeMarker(checks, position, e))
  {
    assert ConflictParams(checks, 1)[0..] == ConflictParams(checks, 1);
    ClausesMean(checks, 1, ConflictParams(checks, 1), position, e);
  }

  // ---------------------------------------------------------------------------
  // Queries, and the tags an append locks for them
  // ---------------------------------------------------------------------------

  /** One query item: `types` any-of (empty for no restriction) and `tags` all-of. */
  datatype Item = Item(tags: seq<Tag>, types: seq<string>)

  predicate MatchesItem(e: Event, item: Item) {
    (forall t :: t in item.tags ==> t in e.tags) && (item.types == [] || e.name in item.types)
  }

  /** The items of a query are ORed. */
  predicate MatchesQuery(e: Event, query: seq<Item>) {
    exists i :: 0 <= i < |query| && MatchesItem(e, query[i])
  }

  function CompileItem(item: Item): Criteria {
    if item.types == [] then Tags(item.tags) else TypeRestricted(Tags(item.tags), item.types)
  }

  function CompileQuery(query: seq<Item>): Criteria {
    if |query| == 1 then CompileItem(query[0])
    else Either(seq(|query|, i requires 0 <= i < |query| => CompileItem(query[i])))
  }

  /** The tags an append must lock for the criteria it is conditioned on. */
  function CriteriaTags(c: Criteria): seq<Tag>
    decreases c, 0
  {
    match c
    case Tags(tags) => tags
    case AnyTag => []
    case TypeRestricted(inner, _) => CriteriaTags(inner)
    case Either(cs) => EitherTags(cs)
  }

  function EitherTags(cs: seq<Criteria>): seq<Tag>
    decreases cs, 1
  {
    if cs == [] then [] else CriteriaTags(cs[0]) + EitherTags(cs[1..])
  }

  lemma {:induction false} EitherTagsAre(cs: seq<Criteria>, t: Tag)
    ensures t in EitherTags(cs) <==> exists i :: 0 <= i < |cs| && t in CriteriaTags(cs[i])
  {
    if cs != [] {
      EitherTagsAre(cs[1..], t);
      assert forall i :: 1 <= i < |cs| ==> cs[i] == cs[1..][i - 1];
      assert forall i :: 0 <= i < |cs[1..]| ==> cs[1..][i] == cs[i + 1];
    }
  }

  /** Compiling a query keeps its meaning, gives a well-formed tree, and loses none of its tags. */
  lemma CompiledQuery(query: seq<Item>, e: Event, t: Tag)
    requires query != []
    ensures Matches(e, CompileQuery(query)) <==> MatchesQuery(e, query)
    ensures NoEmptyEither(CompileQuery(query))
    ensures t in CriteriaTags(CompileQuery(query)) <==> exists i :: 0 <= i < |query| && t in query[i].tags
  {
    if |query| != 1 {
      var cs := CompileQuery(query).criteria;
      assert forall i :: 0 <= i < |cs| ==> cs[i] == CompileItem(query[i]);
      assert forall i :: 0 <= i < |cs| ==> Matches(e, cs[i]) == MatchesItem(e, query[i]);
      EitherTagsAre(cs, t);
      assert forall i :: 0 <= i < |cs| ==> CriteriaTags(cs[i]) == query[i].tags;
    }
  }
}
