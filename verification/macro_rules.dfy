/**
 * The definition-time rules of the `error_chain!` macro (src/error_chain.rs:1-377).
 *
 * The macro is a term-rewriting system: an invocation is matched against the
 * rules in order and either generates code from the canonical four-section
 * form, rewrites itself into another invocation, or is rejected.  `Step` is one
 * rule application, `Expand` iterates it up to the compiler's recursion limit,
 * and `Normalised` is an independent, declarative statement of what the whole
 * expansion computes; `DefineMatchesNormalised` proves the two agree.
 */
module Macro {
  import opened Wrappers

  /** A token of a section body.  A (possibly qualified) path is one `Ident`. */
  datatype Token = Ident(name: string) | Comma | Semi | Attr(meta: string) | Other(text: string)

  /** The token tree that follows a block name: a `{ ... }` group, or any other tree. */
  datatype Tree = Braced(tokens: seq<Token>) | Unbraced(text: string)

  /** `name tree`, one block of the macro input. */
  datatype Block = Block(name: string, content: Tree)

  /** The generated type names `Error, ErrorKind, Result`. */
  datatype Names = Names(error: string, kind: string, result: string)

  /** One `path, Variant $(, #[meta])*;` entry of `links` or `foreign_links`. */
  datatype LinkSpec = LinkSpec(path: string, variant: string, metas: seq<string>)

  /** The canonical form the code-generating rule consumes. */
  datatype Canonical = Canonical(names: Names, links: seq<LinkSpec>, foreignLinks: seq<LinkSpec>, errors: seq<Token>)

  /**
   * Why a definition is refused: no rule matches, the `@processed` parse-error
   * rule fires, or the expansion does not finish within the recursion limit.
   */
  datatype Failure = NoRuleMatches | ParseError | RecursionLimit

  /** The four accumulators `(types, links, foreign_links, errors)` of `@processing`. */
  datatype Slots = Slots(types: Tree, links: Tree, foreignLinks: Tree, errors: Tree)

  /** An invocation: `$(@processed)* blocks`, or `@processing (slots) rest`. */
  datatype Invocation =
    | Plain(processed: nat, blocks: seq<Block>)
    | Processing(slots: Slots, rest: seq<Block>)

  /** What one rule application does with an invocation. */
  datatype Outcome = Generate(canonical: Canonical) | Rewrite(next: Invocation) | Reject(failure: Failure)

  const DefaultNames := Names("Error", "ErrorKind", "Result")

  const EmptySlots := Slots(Braced([]), Braced([]), Braced([]), Braced([]))

  // ---------------------------------------------------------------------------
  // Section bodies

  function RenderNames(n: Names): seq<Token> {
    [Ident(n.error), Comma, Ident(n.kind), Comma, Ident(n.result), Semi]
  }

  /** `$error_name:ident, $error_kind_name:ident, $result_name:ident;` */
  function ParseNames(ts: seq<Token>): (r: Option<Names>)
    ensures r.Some? ==> RenderNames(r.value) == ts
  {
    if |ts| == 6 && ts[0].Ident? && ts[1] == Comma && ts[2].Ident? && ts[3] == Comma && ts[4].Ident? && ts[5] == Semi
    then Some(Names(ts[0].name, ts[2].name, ts[4].name))
    else None
  }

  lemma NamesRoundTrip(ts: seq<Token>, n: Names)
    ensures ParseNames(ts) == Some(n) <==> ts == RenderNames(n)
  {
  }

  /** The metas of one entry and the tokens after its `;`. */
  datatype Metas = Metas(metas: seq<string>, rest: seq<Token>)

  function RenderMetas(ms: seq<string>): seq<Token> {
    if ms == [] then [Semi] else [Comma, Attr(ms[0])] + RenderMetas(ms[1..])
  }

  /** `$(, #[$meta:meta])* ;` at the head of `ts`. */
  function ParseMetas(ts: seq<Token>): (r: Option<Metas>)
    ensures r.Some? ==> |ts| == 1 + 2 * |r.value.metas| + |r.value.rest|
  {
    if |ts| >= 1 && ts[0] == Semi then Some(Metas([], ts[1..]))
    else if |ts| >= 2 && ts[0] == Comma && ts[1].Attr? then
      match ParseMetas(ts[2..])
      case None => None
      case Some(m) => Some(Metas([ts[1].meta] + m.metas, m.rest))
    else None
  }

  function RenderLink(l: LinkSpec): seq<Token> {
    [Ident(l.path), Comma, Ident(l.variant)] + RenderMetas(l.metas)
  }

  function RenderLinks(ls: seq<LinkSpec>): seq<Token> {
    if ls == [] then [] else RenderLink(ls[0]) + RenderLinks(ls[1..])
  }

  /**
   * `$( $path:path, $variant:ident $(, #[$meta:meta])*; )*`, the whole of
   * `ts`: every entry takes at least four tokens, and only the empty body
   * gives no entries.
   */
  function ParseLinks(ts: seq<Token>): (r: Option<seq<LinkSpec>>)
    ensures r.Some? ==> 4 * |r.value| <= |ts|
    ensures r.Some? ==> (r.value == [] <==> ts == [])
    decreases |ts|
  {
    if ts == [] then Some([])
    else if |ts| >= 3 && ts[0].Ident? && ts[1] == Comma && ts[2].Ident? then
      match ParseMetas(ts[3..])
      case None => None
      case Some(m) =>
        match ParseLinks(m.rest)
        case None => None
        case Some(ls) => Some([LinkSpec(ts[0].name, ts[2].name, m.metas)] + ls)
    else None
  }

  lemma {:induction false} ParseMetasRender(ms: seq<string>, rest: seq<Token>)
    ensures ParseMetas(RenderMetas(ms) + rest) == Some(Metas(ms, rest))
  {
    if ms != [] {
      var ts := RenderMetas(ms) + rest;
      assert ts[2..] == RenderMetas(ms[1..]) + rest;
      ParseMetasRender(ms[1..], rest);
      assert [ms[0]] + ms[1..] == ms;
    } else {
      assert (RenderMetas(ms) + rest)[1..] == rest;
    }
  }

  lemma {:induction false} ParseMetasExact(ts: seq<Token>)
    requires ParseMetas(ts).Some?
    ensures ts == RenderMetas(ParseMetas(ts).value.metas) + ParseMetas(ts).value.rest
  {
    if ts[0] == Semi {
      assert ts == [Semi] + ts[1..];
    } else {
      ParseMetasExact(ts[2..]);
      var m := ParseMetas(ts[2..]).value;
      assert ([ts[1].meta] + m.metas)[1..] == m.metas;
      assert ts == [ts[0], ts[1]] + ts[2..];
    }
  }

  /** Rendering a list of entries and parsing it back gives the same entries. */
  lemma {:induction false} ParseRender(ls: seq<LinkSpec>)
    ensures ParseLinks(RenderLinks(ls)) == Some(ls)
  {
    if ls != [] {
      ParseRender(ls[1..]);
      ParseCons(ls[0], RenderLinks(ls[1..]));
      assert [ls[0]] + ls[1..] == ls;
    }
  }

  /** One rendered entry in front of a list that parses adds that entry in front. */
  lemma ParseCons(l: LinkSpec, rest: seq<Token>)
    requires ParseLinks(rest).Some?
    ensures ParseLinks(RenderLink(l) + rest) == Some([l] + ParseLinks(rest).value)
  {
    RenderLinkShape(l, rest);
    ParseMetasRender(l.metas, rest);
    ParseEntryAt(RenderLink(l) + rest, Metas(l.metas, rest));
  }

  lemma RenderLinkShape(l: LinkSpec, rest: seq<Token>)
    ensures var ts := RenderLink(l) + rest;
      |ts| >= 3 && ts[0] == Ident(l.path) && ts[1] == Comma && ts[2] == Ident(l.variant)
      && ts[3..] == RenderMetas(l.metas) + rest
  {
    var ts := RenderLink(l) + rest;
    assert ts == [Ident(l.path), Comma, Ident(l.variant)] + (RenderMetas(l.metas) + rest);
  }

  /** A list whose first entry is `ts[..3]` and the metas `m` parses to that entry and the rest. */
  lemma ParseEntryAt(ts: seq<Token>, m: Metas)
    requires |ts| >= 3 && ts[0].Ident? && ts[1] == Comma && ts[2].Ident?
    requires ParseMetas(ts[3..]) == Some(m) && ParseLinks(m.rest).Some?
    ensures ParseLinks(ts) == Some([LinkSpec(ts[0].name, ts[2].name, m.metas)] + ParseLinks(m.rest).value)
  {
  }

  /** A non-empty list that parses starts with one whole entry. */
  lemma ParseLinksHead(ts: seq<Token>)
    requires ts != [] && ParseLinks(ts).Some?
    ensures |ts| >= 3 && ts[0].Ident? && ts[1] == Comma && ts[2].Ident?
    ensures ParseMetas(ts[3..]).Some? && ParseLinks(ParseMetas(ts[3..]).value.rest).Some?
    ensures var m := ParseMetas(ts[3..]).value;
      ParseLinks(ts).value == [LinkSpec(ts[0].name, ts[2].name, m.metas)] + ParseLinks(m.rest).value
  {
  }

  lemma RenderCons(l: LinkSpec, tail: seq<LinkSpec>)
    ensures RenderLinks([l] + tail) == RenderLink(l) + RenderLinks(tail)
  {
    assert ([l] + tail)[0] == l && ([l] + tail)[1..] == tail;
  }

  lemma RenderEntry(ts: seq<Token>, m: Metas)
    requires |ts| >= 3 && ts[0].Ident? && ts[1] == Comma && ts[2].Ident?
    requires ts[3..] == RenderMetas(m.metas) + m.rest
    ensures RenderLink(LinkSpec(ts[0].name, ts[2].name, m.metas)) + m.rest == ts
  {
    assert ts == [ts[0], ts[1], ts[2]] + ts[3..];
  }

  /** Parsing is exact: a list that parses is the rendering of what it parses to. */
  lemma {:induction false} ParseExact(ts: seq<Token>)
    requires ParseLinks(ts).Some?
    ensures RenderLinks(ParseLinks(ts).value) == ts
    decreases |ts|
  {
    if ts != [] {
      ParseLinksHead(ts);
      var m := ParseMetas(ts[3..]).value;
      var tail := ParseLinks(m.rest).value;
      var l := LinkSpec(ts[0].name, ts[2].name, m.metas);
      ParseExact(m.rest);
      ParseMetasExact(ts[3..]);
      RenderCons(l, tail);
      RenderEntry(ts, m);
    }
  }

  lemma {:induction false} RenderAppend(a: seq<LinkSpec>, b: seq<LinkSpec>)
    ensures RenderLinks(a + b) == RenderLinks(a) + RenderLinks(b)
  {
    if a != [] {
      assert (a + b)[0] == a[0];
      assert (a + b)[1..] == a[1..] + b;
      RenderAppend(a[1..], b);
    } else {
      assert a + b == b;
    }
  }

  /** Two well-formed entry lists written one after the other parse to both lists, in order. */
  lemma ParseAppend(a: seq<Token>, b: seq<Token>)
    requires ParseLinks(a).Some? && ParseLinks(b).Some?
    ensures ParseLinks(a + b) == Some(ParseLinks(a).value + ParseLinks(b).value)
  {
    ParseExact(a);
    ParseExact(b);
    RenderAppend(ParseLinks(a).value, ParseLinks(b).value);
    ParseRender(ParseLinks(a).value + ParseLinks(b).value);
  }

  // ---------------------------------------------------------------------------
  // Block sequences

  /** Position of a section in `$(links{..})* $(foreign_links{..})* $(errors{..})*`; 0 for any other name. */
  function Rank(name: string): nat {
    if name == "links" then 1 else if name == "foreign_links" then 2 else if name == "errors" then 3 else 0
  }

  /** One of the four names the `@processing` rules accept. */
  predicate IsSection(name: string) {
    name == "types" || Rank(name) > 0
  }

  predicate AllSections(bs: seq<Block>) {
    forall i :: 0 <= i < |bs| ==> IsSection(bs[i].name)
  }

  /** Braced `links`, `foreign_links`, `errors` blocks, in that order, none ranked below `from`. */
  predicate InOrderFrom(bs: seq<Block>, from: nat) {
    bs == [] ||
    (bs[0].content.Braced? && 0 < Rank(bs[0].name) && from <= Rank(bs[0].name) && InOrderFrom(bs[1..], Rank(bs[0].name)))
  }

  predicate InOrder(bs: seq<Block>) {
    InOrderFrom(bs, 1)
  }

  /** A braced `types` block followed by in-order sections. */
  predicate TypesThenInOrder(bs: seq<Block>) {
    |bs| > 0 && bs[0].name == "types" && bs[0].content.Braced? && InOrder(bs[1..])
  }

  /** The bodies of the braced blocks called `name`, concatenated in declaration order. */
  function Concat(bs: seq<Block>, name: string): seq<Token> {
    if bs == [] then []
    else (if bs[0].name == name && bs[0].content.Braced? then bs[0].content.tokens else []) + Concat(bs[1..], name)
  }

  function FourBlocks(types: Tree, links: Tree, foreignLinks: Tree, errors: Tree): seq<Block> {
    [Block("types", types), Block("links", links), Block("foreign_links", foreignLinks), Block("errors", errors)]
  }

  /** The `@processed` invocation body Cases 1-3 emit. */
  function Emit(types: seq<Token>, sections: seq<Block>): seq<Block> {
    FourBlocks(Braced(types), Braced(Concat(sections, "links")), Braced(Concat(sections, "foreign_links")),
               Braced(Concat(sections, "errors")))
  }

  /** A taxonomy written out in the exact shape of the generating rule. */
  function RenderCanonical(c: Canonical): seq<Block> {
    FourBlocks(Braced(RenderNames(c.names)), Braced(RenderLinks(c.links)), Braced(RenderLinks(c.foreignLinks)),
               Braced(c.errors))
  }

  /**
   * The exact shape of the generating rule (src/error_chain.rs:3-21): it
   * accepts only the written-out form of the taxonomy it returns.
   */
  function MatchCanonical(bs: seq<Block>): (r: Option<Canonical>)
    ensures r.Some? ==> bs == RenderCanonical(r.value)
  {
    if |bs| == 4 && bs == FourBlocks(bs[0].content, bs[1].content, bs[2].content, bs[3].content)
       && bs[0].content.Braced? && bs[1].content.Braced? && bs[2].content.Braced? && bs[3].content.Braced?
    then
      match (ParseNames(bs[0].content.tokens), ParseLinks(bs[1].content.tokens), ParseLinks(bs[2].content.tokens))
      case (Some(n), Some(l), Some(f)) =>
        ParseExact(bs[1].content.tokens);
        ParseExact(bs[2].content.tokens);
        Some(Canonical(n, l, f, bs[3].content.tokens))
      case _ => None
    else None
  }

  /** Conversely, the written-out form of every taxonomy matches, giving that taxonomy. */
  lemma MatchRender(c: Canonical)
    ensures MatchCanonical(RenderCanonical(c)) == Some(c)
  {
    ParseRender(c.links);
    ParseRender(c.foreignLinks);
    NamesRoundTrip(RenderNames(c.names), c.names);
  }

  /** One `@processing` rule: overwrite the slot named by the block. */
  function Store(s: Slots, b: Block): (r: Slots)
    requires IsSection(b.name)
    ensures r == LastSlots([b], s)
  {
    LastSlotsOne(s, b);
    if b.name == "types" then s.(types := b.content)
    else if b.name == "links" then s.(links := b.content)
    else if b.name == "foreign_links" then s.(foreignLinks := b.content)
    else s.(errors := b.content)
  }

  // ---------------------------------------------------------------------------
  // The rewriting system

  /**
   * The first rule of the macro that matches `inv`, applied once.  Code is
   * generated only from a plain invocation in the written-out form; a parse
   * error arises only after exactly one `@processed`; every rewrite to a
   * plain invocation emits four blocks after one `@processed`; and a fold
   * step either consumes one block or finds no rule.
   */
  function Step(inv: Invocation): (r: Outcome)
    ensures r.Generate? ==> inv.Plain? && inv.blocks == RenderCanonical(r.canonical)
                            && MatchCanonical(inv.blocks) == Some(r.canonical)
    ensures r == Reject(ParseError) ==> inv.Plain? && inv.processed == 1
    ensures r.Rewrite? && r.next.Plain? ==> r.next.processed == 1 && |r.next.blocks| == 4
    ensures inv.Processing? && inv.rest != []
            ==> r == Reject(NoRuleMatches) || (r.Rewrite? && r.next.Processing? && r.next.rest == inv.rest[1..])
  {
    match inv
    case Plain(p, bs) =>
      if MatchCanonical(bs).Some? then Generate(MatchCanonical(bs).value)
      // Case 1: types fully specified
      else if TypesThenInOrder(bs) && ParseNames(bs[0].content.tokens).Some? then
        Rewrite(Plain(1, Emit(bs[0].content.tokens, bs[1..])))
      // Case 2: types present but empty
      else if TypesThenInOrder(bs) && bs[0].content.tokens == [] then
        Rewrite(Plain(1, Emit(RenderNames(DefaultNames), bs[1..])))
      // Case 3: types absent
      else if InOrder(bs) then Rewrite(Plain(1, Emit([], bs)))
      // `@processed` followed by anything else
      else if p == 1 then Reject(ParseError)
      // catch-all: start the fold
      else if p == 0 then Rewrite(Processing(EmptySlots, bs))
      else Reject(NoRuleMatches)
    case Processing(s, bs) =>
      if bs == [] then
        Rewrite(Plain(1, FourBlocks(s.types, s.links, s.foreignLinks, s.errors)))
      else if IsSection(bs[0].name) then Rewrite(Processing(Store(s, bs[0]), bs[1..]))
      else Reject(NoRuleMatches)
  }

  /** Rewrites until code is generated or the invocation is rejected; `depth` is the recursion limit. */
  function Expand(inv: Invocation, depth: nat): Result<Canonical, Failure>
    decreases depth
  {
    match Step(inv)
    case Generate(c) => Ok(c)
    case Reject(f) => Err(f)
    case Rewrite(next) => if depth == 0 then Err(RecursionLimit) else Expand(next, depth - 1)
  }

  /**
   * A result reached within a recursion limit is the result under every
   * larger limit: only `RecursionLimit` depends on the limit.
   */
  lemma {:induction false} ExpandStable(inv: Invocation, depth: nat, more: nat)
    requires Expand(inv, depth) != Err(RecursionLimit) && depth <= more
    ensures Expand(inv, more) == Expand(inv, depth)
    decreases depth
  {
    match Step(inv)
    case Generate(_) =>
    case Reject(_) =>
    case Rewrite(next) =>
      var d: nat, m: nat := depth - 1, more - 1;
      ExpandRewrite(inv, next, d);
      ExpandRewrite(inv, next, m);
      ExpandSucc(inv, depth, d);
      ExpandSucc(inv, more, m);
      ExpandStable(next, d, m);
  }

  /** `error_chain! { blocks }` under recursion limit `limit`. */
  function Define(bs: seq<Block>, limit: nat): Result<Canonical, Failure> {
    Expand(Plain(0, bs), limit)
  }

  // ---------------------------------------------------------------------------
  // The reference definition

  /** The content of the last block called `name`, or `init` when there is none. */
  function LastContent(bs: seq<Block>, name: string, init: Tree): Tree {
    if bs == [] then init
    else if bs[|bs| - 1].name == name then bs[|bs| - 1].content
    else LastContent(bs[..|bs| - 1], name, init)
  }

  /** The slots after folding `bs` into `s`: the last block of each name wins. */
  function LastSlots(bs: seq<Block>, s: Slots): Slots {
    Slots(LastContent(bs, "types", s.types), LastContent(bs, "links", s.links),
          LastContent(bs, "foreign_links", s.foreignLinks), LastContent(bs, "errors", s.errors))
  }

  function NamesOrDefault(ts: seq<Token>): Names {
    if ParseNames(ts).Some? then ParseNames(ts).value else DefaultNames
  }

  /** Code is generated when both entry lists parse; otherwise Case 1 rewrites to itself forever. */
  function Finish(names: Names, links: seq<Token>, foreignLinks: seq<Token>, errors: seq<Token>): Result<Canonical, Failure> {
    match (ParseLinks(links), ParseLinks(foreignLinks))
    case (Some(l), Some(f)) => Ok(Canonical(names, l, f, errors))
    case _ => Err(RecursionLimit)
  }

  /** The fold's `@processed` output: only braced bodies and a name triple or empty `types` go on. */
  function FinishSlots(s: Slots): Result<Canonical, Failure> {
    if s.types.Braced? && s.links.Braced? && s.foreignLinks.Braced? && s.errors.Braced?
       && (ParseNames(s.types.tokens).Some? || s.types.tokens == [])
    then Finish(NamesOrDefault(s.types.tokens), s.links.tokens, s.foreignLinks.tokens, s.errors.tokens)
    else Err(ParseError)
  }

  /**
   * What a definition means: in-order blocks are concatenated, with default
   * names when `types` is absent or empty; otherwise every block must be one of
   * the four sections, and the last block of each name wins.
   */
  function Normalised(bs: seq<Block>): Result<Canonical, Failure> {
    if TypesThenInOrder(bs) && (ParseNames(bs[0].content.tokens).Some? || bs[0].content.tokens == []) then
      Finish(NamesOrDefault(bs[0].content.tokens), Concat(bs[1..], "links"), Concat(bs[1..], "foreign_links"),
             Concat(bs[1..], "errors"))
    else if InOrder(bs) then
      Finish(DefaultNames, Concat(bs, "links"), Concat(bs, "foreign_links"), Concat(bs, "errors"))
    else if AllSections(bs) then
      FinishSlots(LastSlots(bs, EmptySlots))
    else
      Err(NoRuleMatches)
  }

  // ---------------------------------------------------------------------------
  // The rewriting system computes the reference definition

  /** An invocation that rewrites to itself exhausts any recursion limit. */
  lemma {:induction false} SelfLoop(inv: Invocation, d: nat)
    requires Step(inv) == Rewrite(inv)
    ensures Expand(inv, d) == Err(RecursionLimit)
  {
    if d > 0 {
      SelfLoop(inv, d - 1);
    }
  }

  lemma ConcatFour(t: seq<Token>, l: seq<Token>, f: seq<Token>, e: seq<Token>)
    ensures var rest := FourBlocks(Braced(t), Braced(l), Braced(f), Braced(e))[1..];
      Concat(rest, "links") == l && Concat(rest, "foreign_links") == f && Concat(rest, "errors") == e
      && InOrder(rest)
  {
    var rest := FourBlocks(Braced(t), Braced(l), Braced(f), Braced(e))[1..];
    assert rest[1..][1..][1..] == [];
    assert Concat(rest[1..][1..], "links") == [];
    assert Concat(rest[1..][1..], "foreign_links") == [];
    assert Concat(rest[1..][1..], "errors") == e;
    assert Concat(rest[1..], "foreign_links") == f;
    assert InOrderFrom(rest[1..][1..], 2);
  }

  /** The `@processed` form with a name triple generates code or loops in Case 1. */
  lemma FinishTriple(p: nat, n: Names, l: seq<Token>, f: seq<Token>, e: seq<Token>, d: nat)
    ensures Expand(Plain(p, FourBlocks(Braced(RenderNames(n)), Braced(l), Braced(f), Braced(e))), d)
            == Finish(n, l, f, e)
  {
    var bs := FourBlocks(Braced(RenderNames(n)), Braced(l), Braced(f), Braced(e));
    NamesRoundTrip(RenderNames(n), n);
    ConcatFour(RenderNames(n), l, f, e);
    if MatchCanonical(bs).None? {
      assert Emit(RenderNames(n), bs[1..]) == bs;
      assert Step(Plain(1, bs)) == Rewrite(Plain(1, bs));
      SelfLoop(Plain(1, bs), if d == 0 then 0 else d - 1);
    }
  }

  /** The `@processed` form with an empty `types` goes through Case 2 first. */
  lemma FinishEmpty(p: nat, l: seq<Token>, f: seq<Token>, e: seq<Token>, d: nat)
    requires d >= 1
    ensures Expand(Plain(p, FourBlocks(Braced([]), Braced(l), Braced(f), Braced(e))), d)
            == Finish(DefaultNames, l, f, e)
  {
    var bs := FourBlocks(Braced([]), Braced(l), Braced(f), Braced(e));
    var next := Plain(1, FourBlocks(Braced(RenderNames(DefaultNames)), Braced(l), Braced(f), Braced(e)));
    ConcatFour([], l, f, e);
    assert Emit(RenderNames(DefaultNames), bs[1..]) == next.blocks;
    assert Step(Plain(p, bs)) == Rewrite(next);
    var k: nat := d - 1;
    ExpandRewrite(Plain(p, bs), next, k);
    ExpandSucc(Plain(p, bs), d, k);
    FinishTriple(1, DefaultNames, l, f, e, k);
  }

  /** In Cases 1 and 2 the three sections after `types` must all be braced. */
  lemma FourInOrder(a: Tree, b: Tree, c: Tree, e: Tree)
    requires InOrder(FourBlocks(a, b, c, e)[1..])
    ensures b.Braced? && c.Braced? && e.Braced?
  {
    var r := FourBlocks(a, b, c, e)[1..];
    assert r[0] == Block("links", b);
    assert InOrderFrom(r[1..], 1);
    assert r[1..][0] == Block("foreign_links", c);
    assert InOrderFrom(r[1..][1..], 2);
    assert r[1..][1..][0] == Block("errors", e);
  }

  /** The fold's `@processed` output is finished as `FinishSlots` says. */
  lemma FinishFold(s: Slots, d: nat)
    requires d >= 1
    ensures Expand(Plain(1, FourBlocks(s.types, s.links, s.foreignLinks, s.errors)), d) == FinishSlots(s)
  {
    var bs := FourBlocks(s.types, s.links, s.foreignLinks, s.errors);
    if s.types.Braced? && s.links.Braced? && s.foreignLinks.Braced? && s.errors.Braced? {
      if ParseNames(s.types.tokens).Some? {
        FinishTriple(1, ParseNames(s.types.tokens).value, s.links.tokens, s.foreignLinks.tokens, s.errors.tokens, d);
        return;
      } else if s.types.tokens == [] {
        FinishEmpty(1, s.links.tokens, s.foreignLinks.tokens, s.errors.tokens, d);
        return;
      }
    }
    if TypesThenInOrder(bs) {
      FourInOrder(s.types, s.links, s.foreignLinks, s.errors);
    }
    assert MatchCanonical(bs).None?;
    assert !InOrder(bs);
    assert Step(Plain(1, bs)) == Reject(ParseError);
  }

  lemma {:induction false} LastContentCons(b: Block, bs: seq<Block>, name: string, init: Tree)
    ensures LastContent([b] + bs, name, init) == LastContent(bs, name, if b.name == name then b.content else init)
    decreases |bs|
  {
    if bs != [] {
      var all := [b] + bs;
      assert all[..|all| - 1] == [b] + bs[..|bs| - 1];
      assert all[|all| - 1] == bs[|bs| - 1];
      LastContentCons(b, bs[..|bs| - 1], name, init);
    }
  }

  /** Folding one block overwrites only the slot it names. */
  lemma LastSlotsOne(s: Slots, b: Block)
    ensures LastSlots([b], s)
            == Slots(if b.name == "types" then b.content else s.types,
                     if b.name == "links" then b.content else s.links,
                     if b.name == "foreign_links" then b.content else s.foreignLinks,
                     if b.name == "errors" then b.content else s.errors)
  {
    assert [b] + [] == [b];
    LastContentCons(b, [], "types", s.types);
    LastContentCons(b, [], "links", s.links);
    LastContentCons(b, [], "foreign_links", s.foreignLinks);
    LastContentCons(b, [], "errors", s.errors);
  }

  lemma {:induction false} LastContentAbsent(bs: seq<Block>, name: string, init: Tree)
    requires forall i :: 0 <= i < |bs| ==> bs[i].name != name
    ensures LastContent(bs, name, init) == init
    decreases |bs|
  {
    if bs != [] {
      LastContentAbsent(bs[..|bs| - 1], name, init);
    }
  }

  lemma AllSectionsCons(bs: seq<Block>)
    requires bs != [] && IsSection(bs[0].name)
    ensures AllSections(bs) <==> AllSections(bs[1..])
  {
    if AllSections(bs[1..]) {
      forall i | 0 <= i < |bs| ensures IsSection(bs[i].name) {
        if i > 0 { assert bs[i] == bs[1..][i - 1]; }
      }
    }
  }

  /** Storing the first block and folding the rest leaves the same last blocks. */
  lemma LastSlotsCons(s: Slots, bs: seq<Block>)
    requires bs != [] && IsSection(bs[0].name)
    ensures LastSlots(bs, s) == LastSlots(bs[1..], Store(s, bs[0]))
  {
    var b := bs[0];
    assert bs == [b] + bs[1..];
    LastContentCons(b, bs[1..], "types", s.types);
    LastContentCons(b, bs[1..], "links", s.links);
    LastContentCons(b, bs[1..], "foreign_links", s.foreignLinks);
    LastContentCons(b, bs[1..], "errors", s.errors);
  }

  /** The `@processing` fold keeps the last block of each name, or stops at an unknown name. */
  lemma {:induction false} Fold(s: Slots, bs: seq<Block>, d: nat)
    requires d >= |bs| + 2
    ensures Expand(Processing(s, bs), d)
            == if AllSections(bs) then FinishSlots(LastSlots(bs, s)) else Err(NoRuleMatches)
    decreases |bs|
  {
    var e: nat := d - 1;
    if bs == [] {
      ExpandRewrite(Processing(s, bs), Plain(1, FourBlocks(s.types, s.links, s.foreignLinks, s.errors)), e);
      ExpandSucc(Processing(s, bs), d, e);
      FinishFold(s, e);
    } else if IsSection(bs[0].name) {
      ExpandRewrite(Processing(s, bs), Processing(Store(s, bs[0]), bs[1..]), e);
      ExpandSucc(Processing(s, bs), d, e);
      Fold(Store(s, bs[0]), bs[1..], e);
      AllSectionsCons(bs);
      LastSlotsCons(s, bs);
    }
  }

  lemma InOrderSections(bs: seq<Block>, from: nat)
    requires InOrderFrom(bs, from)
    ensures AllSections(bs) && forall i :: 0 <= i < |bs| ==> bs[i].name != "types"
    decreases |bs|
  {
    if bs != [] {
      InOrderSections(bs[1..], Rank(bs[0].name));
      assert forall i :: 1 <= i < |bs| ==> bs[i] == bs[1..][i - 1];
    }
  }

  /** The generating rule only matches what Case 1 would also accept. */
  lemma MatchCanonicalCase1(bs: seq<Block>)
    requires MatchCanonical(bs).Some?
    ensures TypesThenInOrder(bs) && ParseNames(bs[0].content.tokens) == Some(MatchCanonical(bs).value.names)
    ensures var c := MatchCanonical(bs).value;
      Finish(c.names, Concat(bs[1..], "links"), Concat(bs[1..], "foreign_links"), Concat(bs[1..], "errors")) == Ok(c)
  {
    assert bs == FourBlocks(Braced(bs[0].content.tokens), Braced(bs[1].content.tokens), Braced(bs[2].content.tokens),
                            Braced(bs[3].content.tokens));
    ConcatFour(bs[0].content.tokens, bs[1].content.tokens, bs[2].content.tokens, bs[3].content.tokens);
  }

  lemma DefineCase1(bs: seq<Block>, limit: nat)
    requires limit >= 1
    requires TypesThenInOrder(bs) && ParseNames(bs[0].content.tokens).Some?
    ensures Define(bs, limit) == Normalised(bs)
  {
    var n := ParseNames(bs[0].content.tokens).value;
    if MatchCanonical(bs).Some? {
      MatchCanonicalCase1(bs);
    } else {
      assert Step(Plain(0, bs)) == Rewrite(Plain(1, Emit(RenderNames(n), bs[1..])));
      FinishTriple(1, n, Concat(bs[1..], "links"), Concat(bs[1..], "foreign_links"), Concat(bs[1..], "errors"), limit - 1);
    }
  }

  lemma DefineCase2(bs: seq<Block>, limit: nat)
    requires limit >= 1
    requires TypesThenInOrder(bs) && bs[0].content.tokens == []
    ensures Define(bs, limit) == Normalised(bs)
  {
    assert MatchCanonical(bs).None?;
    assert Step(Plain(0, bs)) == Rewrite(Plain(1, Emit(RenderNames(DefaultNames), bs[1..])));
    FinishTriple(1, DefaultNames, Concat(bs[1..], "links"), Concat(bs[1..], "foreign_links"), Concat(bs[1..], "errors"), limit - 1);
  }

  /** A rewrite costs one level of the recursion limit. */
  lemma ExpandRewrite(inv: Invocation, next: Invocation, d: nat)
    requires Step(inv) == Rewrite(next)
    ensures Expand(inv, d + 1) == Expand(next, d)
  {
  }

  /** The same depth, written as a successor. */
  lemma ExpandSucc(inv: Invocation, d: nat, e: nat)
    requires d == e + 1
    ensures Expand(inv, d) == Expand(inv, e + 1)
  {
  }

  /** In-order blocks start with a section other than `types`, so Case 3 is the first rule to match. */
  lemma InOrderCase3(bs: seq<Block>)
    requires InOrder(bs)
    ensures MatchCanonical(bs).None? && !TypesThenInOrder(bs)
    ensures Step(Plain(0, bs))
            == Rewrite(Plain(1, FourBlocks(Braced([]), Braced(Concat(bs, "links")), Braced(Concat(bs, "foreign_links")),
                                           Braced(Concat(bs, "errors")))))
    ensures Normalised(bs) == Finish(DefaultNames, Concat(bs, "links"), Concat(bs, "foreign_links"), Concat(bs, "errors"))
  {
    assert bs != [] ==> Rank(bs[0].name) > 0;
  }

  lemma DefineCase3(bs: seq<Block>, limit: nat)
    requires limit >= 2
    requires InOrder(bs)
    ensures Define(bs, limit) == Normalised(bs)
  {
    InOrderCase3(bs);
    var l, f, e := Concat(bs, "links"), Concat(bs, "foreign_links"), Concat(bs, "errors");
    var d: nat := limit - 1;
    var processed := Plain(1, FourBlocks(Braced([]), Braced(l), Braced(f), Braced(e)));
    ExpandRewrite(Plain(0, bs), processed, d);
    ExpandSucc(Plain(0, bs), limit, d);
    FinishEmpty(1, l, f, e, d);
  }

  lemma DefineFold(bs: seq<Block>, limit: nat)
    requires limit >= |bs| + 3
    requires !(TypesThenInOrder(bs) && (ParseNames(bs[0].content.tokens).Some? || bs[0].content.tokens == []))
    requires !InOrder(bs)
    ensures Define(bs, limit) == Normalised(bs)
  {
    if MatchCanonical(bs).Some? {
      MatchCanonicalCase1(bs);
    }
    assert Step(Plain(0, bs)) == Rewrite(Processing(EmptySlots, bs));
    Fold(EmptySlots, bs, limit - 1);
  }

  /**
   * Expanding a definition within a recursion limit of at least three more
   * than its number of blocks yields exactly the reference definition.
   */
  lemma DefineMatchesNormalised(bs: seq<Block>, limit: nat)
    requires limit >= |bs| + 3
    ensures Define(bs, limit) == Normalised(bs)
  {
    if TypesThenInOrder(bs) && ParseNames(bs[0].content.tokens).Some? {
      DefineCase1(bs, limit);
    } else if TypesThenInOrder(bs) && bs[0].content.tokens == [] {
      DefineCase2(bs, limit);
    } else if InOrder(bs) {
      DefineCase3(bs, limit);
    } else {
      DefineFold(bs, limit);
    }
  }

  // ---------------------------------------------------------------------------
  // Properties of the normalised definition

  /** `error_chain! { }` is accepted, with the default names and no sections. */
  lemma EmptyDefinition(limit: nat)
    requires limit >= 3
    ensures Define([], limit) == Ok(Canonical(DefaultNames, [], [], []))
  {
    DefineMatchesNormalised([], limit);
  }

  /**
   * Without any `types` block, writing `types { }` or the default triple in
   * front of the other blocks changes nothing.
   */
  lemma TypesOmittedOrEmpty(rest: seq<Block>)
    requires forall i :: 0 <= i < |rest| ==> rest[i].name != "types"
    ensures Normalised([Block("types", Braced([]))] + rest) == Normalised(rest)
    ensures Normalised([Block("types", Braced(RenderNames(DefaultNames)))] + rest) == Normalised(rest)
  {
    var empty := [Block("types", Braced([]))] + rest;
    var triple := [Block("types", Braced(RenderNames(DefaultNames)))] + rest;
    assert empty[1..] == rest && triple[1..] == rest;
    NamesRoundTrip(RenderNames(DefaultNames), DefaultNames);
    if !InOrder(rest) {
      assert !InOrder(empty) && !InOrder(triple);
      assert rest != [] ==> rest[0].name != "types";
      assert AllSections(empty) <==> AllSections(rest) by {
        forall i | 0 <= i < |rest| ensures empty[i + 1] == rest[i] {}
        if AllSections(rest) {
          forall i | 0 <= i < |empty| ensures IsSection(empty[i].name) {
            if i > 0 { assert empty[i] == rest[i - 1]; }
          }
        }
      }
      assert AllSections(triple) <==> AllSections(rest) by {
        forall i | 0 <= i < |rest| ensures triple[i + 1] == rest[i] {}
        if AllSections(rest) {
          forall i | 0 <= i < |triple| ensures IsSection(triple[i].name) {
            if i > 0 { assert triple[i] == rest[i - 1]; }
          }
        }
      }
      PrefixTypes(Block("types", Braced([])), rest);
      PrefixTypes(Block("types", Braced(RenderNames(DefaultNames))), rest);
    }
  }

  /** A `types` block in front of blocks without one fills the `types` slot and nothing else. */
  lemma PrefixTypes(b: Block, rest: seq<Block>)
    requires b.name == "types"
    requires forall i :: 0 <= i < |rest| ==> rest[i].name != "types"
    ensures LastSlots(rest, EmptySlots).types == Braced([])
    ensures LastSlots([b] + rest, EmptySlots) == LastSlots(rest, EmptySlots).(types := b.content)
  {
    LastContentAbsent(rest, "types", Braced([]));
    LastContentAbsent(rest, "types", b.content);
    LastContentCons(b, rest, "types", Braced([]));
    LastContentCons(b, rest, "links", Braced([]));
    LastContentCons(b, rest, "foreign_links", Braced([]));
    LastContentCons(b, rest, "errors", Braced([]));
  }

  /** The entries of every braced block called `name`, in order, when each block parses on its own. */
  function ParsedBlocks(bs: seq<Block>, name: string): Option<seq<LinkSpec>> {
    if bs == [] then Some([])
    else
      match ParsedBlocks(bs[1..], name)
      case None => None
      case Some(tail) =>
        if bs[0].name == name && bs[0].content.Braced? then
          match ParseLinks(bs[0].content.tokens)
          case None => None
          case Some(head) => Some(head + tail)
        else Some(tail)
  }

  lemma {:induction false} ConcatParses(bs: seq<Block>, name: string)
    requires ParsedBlocks(bs, name).Some?
    ensures ParseLinks(Concat(bs, name)) == ParsedBlocks(bs, name)
  {
    if bs != [] {
      ConcatParses(bs[1..], name);
      if bs[0].name == name && bs[0].content.Braced? {
        ParseAppend(bs[0].content.tokens, Concat(bs[1..], name));
      } else {
        assert Concat(bs, name) == Concat(bs[1..], name);
      }
    }
  }

  /**
   * Blocks in canonical order are merged by concatenation: the links of the
   * definition are those of every `links` block in declaration order, and so
   * for `foreign_links` and `errors`.  This is stated for blocks whose bodies
   * each parse on their own; the macro concatenates at the token level, so
   * an entry may also be split across blocks, and that general statement is
   * `Normalised` itself (its in-order case parses `Concat(bs, name)`).
   */
  lemma InOrderConcatenates(bs: seq<Block>)
    requires InOrder(bs)
    requires ParsedBlocks(bs, "links").Some? && ParsedBlocks(bs, "foreign_links").Some?
    ensures Normalised(bs)
            == Ok(Canonical(DefaultNames, ParsedBlocks(bs, "links").value, ParsedBlocks(bs, "foreign_links").value,
                            Concat(bs, "errors")))
  {
    ConcatParses(bs, "links");
    ConcatParses(bs, "foreign_links");
    assert !TypesThenInOrder(bs) by {
      if bs != [] { assert Rank(bs[0].name) > 0; }
    }
  }

  /** Two adjacent `links` blocks are concatenated. */
  lemma AdjacentLinksConcatenate(a: seq<LinkSpec>, b: seq<LinkSpec>)
    ensures Normalised([Block("links", Braced(RenderLinks(a))), Block("links", Braced(RenderLinks(b)))])
            == Ok(Canonical(DefaultNames, a + b, [], []))
  {
    ParseRender(a);
    ParseRender(b);
    var adjacent := [Block("links", Braced(RenderLinks(a))), Block("links", Braced(RenderLinks(b)))];
    assert adjacent[1..][1..] == [];
    assert InOrder(adjacent);
    assert ParsedBlocks(adjacent[1..], "foreign_links") == Some([]);
    assert ParsedBlocks(adjacent[1..], "links") == Some(b + []);
    assert b + [] == b;
    assert ParsedBlocks(adjacent, "links") == Some(a + b);
    assert ParsedBlocks(adjacent, "foreign_links") == Some([]);
    assert Concat(adjacent[1..], "errors") == [];
    assert Concat(adjacent, "errors") == [];
    InOrderConcatenates(adjacent);
  }

  /** A `links` block after an `errors` block puts the definition out of order. */
  lemma LinksAfterErrors(x: Tree, y: Tree, z: Tree)
    ensures !InOrder([Block("links", x), Block("errors", y), Block("links", z)])
    ensures !TypesThenInOrder([Block("links", x), Block("errors", y), Block("links", z)])
  {
    var split := [Block("links", x), Block("errors", y), Block("links", z)];
    assert split[1..][1..] == [Block("links", z)];
    assert !InOrderFrom(split[1..][1..], 3);
    assert !InOrderFrom(split[1..], 1);
  }

  /** The fold of `links`, `errors`, `links` keeps the second `links` body. */
  lemma LinksErrorsLinksSlots(x: Tree, y: Tree, z: Tree)
    ensures AllSections([Block("links", x), Block("errors", y), Block("links", z)])
    ensures LastSlots([Block("links", x), Block("errors", y), Block("links", z)], EmptySlots)
            == Slots(Braced([]), z, Braced([]), y)
  {
    var split := [Block("links", x), Block("errors", y), Block("links", z)];
    LastContentAbsent(split, "types", Braced([]));
    LastContentAbsent(split, "foreign_links", Braced([]));
    assert split[..|split| - 1] == [Block("links", x), Block("errors", y)];
    assert LastContent(split, "errors", Braced([])) == y;
  }

  /**
   * The same two `links` blocks with an `errors` block between them make the
   * definition out of order, and only the last `links` block survives.
   */
  lemma SeparatedLinksLastWins(a: seq<LinkSpec>, b: seq<LinkSpec>)
    ensures Normalised([Block("links", Braced(RenderLinks(a))), Block("errors", Braced([])), Block("links", Braced(RenderLinks(b)))])
            == Ok(Canonical(DefaultNames, b, [], []))
  {
    ParseRender(b);
    LinksAfterErrors(Braced(RenderLinks(a)), Braced([]), Braced(RenderLinks(b)));
    LinksErrorsLinksSlots(Braced(RenderLinks(a)), Braced([]), Braced(RenderLinks(b)));
  }

  /** Of two `types` blocks the last one names the generated types. */
  lemma LastTypesWin(first: Names, second: Names)
    ensures Normalised([Block("types", Braced(RenderNames(first))), Block("types", Braced(RenderNames(second)))])
            == Ok(Canonical(second, [], [], []))
  {
    var bs := [Block("types", Braced(RenderNames(first))), Block("types", Braced(RenderNames(second)))];
    NamesRoundTrip(RenderNames(second), second);
    assert !InOrder(bs[1..]);
    assert AllSections(bs);
    LastContentAbsent(bs, "links", Braced([]));
    LastContentAbsent(bs, "foreign_links", Braced([]));
    LastContentAbsent(bs, "errors", Braced([]));
    assert LastSlots(bs, EmptySlots) == Slots(Braced(RenderNames(second)), Braced([]), Braced([]), Braced([]));
  }

  lemma {:induction false} NotSectionsNotInOrder(bs: seq<Block>, from: nat)
    requires !AllSections(bs)
    ensures !InOrderFrom(bs, from)
    decreases |bs|
  {
    if IsSection(bs[0].name) {
      assert !AllSections(bs[1..]) by {
        var i :| 0 <= i < |bs| && !IsSection(bs[i].name);
        assert bs[1..][i - 1] == bs[i];
      }
      NotSectionsNotInOrder(bs[1..], Rank(bs[0].name));
    }
  }

  /** A block whose name is not one of the four sections makes every definition fail. */
  lemma UnknownBlockRejected(bs: seq<Block>, i: nat)
    requires i < |bs| && !IsSection(bs[i].name)
    ensures Normalised(bs) == Err(NoRuleMatches)
  {
    NotSectionsNotInOrder(bs, 1);
    if i > 0 {
      assert bs[1..][i - 1] == bs[i];
      NotSectionsNotInOrder(bs[1..], 1);
    }
  }

  /**
   * The `types` slot the fold ends with must be a name triple or empty;
   * anything else reaches the `@processed` parse-error rule.
   */
  lemma BadTypesRejected(bs: seq<Block>)
    requires AllSections(bs)
    requires var t := LastContent(bs, "types", Braced([]));
      t.Unbraced? || (ParseNames(t.tokens).None? && t.tokens != [])
    ensures Normalised(bs) == Err(ParseError)
  {
    if TypesThenInOrder(bs) {
      InOrderSections(bs[1..], 1);
      assert bs == [bs[0]] + bs[1..];
      LastContentCons(bs[0], bs[1..], "types", Braced([]));
      LastContentAbsent(bs[1..], "types", bs[0].content);
    }
    if InOrder(bs) {
      InOrderSections(bs, 1);
      LastContentAbsent(bs, "types", Braced([]));
    }
  }

  /** Each `@processing` step costs one level of recursion: a long enough fold hits the limit. */
  lemma {:induction false} FoldExhausts(s: Slots, bs: seq<Block>, d: nat)
    requires AllSections(bs) && d < |bs|
    ensures Expand(Processing(s, bs), d) == Err(RecursionLimit)
    decreases |bs|
  {
    assert IsSection(bs[0].name);
    if d > 0 {
      assert AllSections(bs[1..]) by {
        forall i | 0 <= i < |bs[1..]| ensures IsSection(bs[1..][i].name) {
          assert bs[1..][i] == bs[i + 1];
        }
      }
      FoldExhausts(Store(s, bs[0]), bs[1..], d - 1);
    }
  }

  /** An out-of-order definition of more blocks than the recursion limit is refused. */
  lemma LongFoldRejected(bs: seq<Block>, limit: nat)
    requires AllSections(bs) && !InOrder(bs) && !TypesThenInOrder(bs)
    requires limit <= |bs|
    ensures Define(bs, limit) == Err(RecursionLimit)
  {
    if MatchCanonical(bs).Some? {
      MatchCanonicalCase1(bs);
    }
    assert Step(Plain(0, bs)) == Rewrite(Processing(EmptySlots, bs));
    if limit > 0 {
      FoldExhausts(EmptySlots, bs, limit - 1);
    }
  }
}
