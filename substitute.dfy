/** Rule matching and ordered substitution: SubstItem, SubstGroup and
    Substitutions with their prepare, match and replace operations, and the
    Rewrite hook that applies them to a response. */
module Substitute {
  import opened Base
  import opened GoStrings
  import opened Regex
  import opened Http

  // =====================================================================
  // The prepared configuration as values, and the meaning of a rewrite

  /** A prepared SubstItem: its compiled pattern and replacement bytes. */
  datatype Rule = Rule(rx: Regexp, repl: seq<byte>)

  /** A prepared SubstGroup: accepted media types, path pattern, rules. */
  datatype Group = Group(mtypes: set<string>, rxPath: Regexp, rules: seq<Rule>)

  /** defaultMtypes. */
  const DefaultMediaTypes: set<string> := {"text/html"}

  /** The media-type set prepare builds from the configured list. */
  function MediaTypeSet(mediaTypes: seq<string>): set<string> {
    if |mediaTypes| == 0 then DefaultMediaTypes else set t | t in mediaTypes
  }

  /** The prepared set is {text/html} for an empty list and exactly the
      listed types otherwise. */
  lemma MediaTypeSetIs(mediaTypes: seq<string>)
    ensures |mediaTypes| == 0 ==> MediaTypeSet(mediaTypes) == {"text/html"}
    ensures |mediaTypes| > 0 ==> forall t :: t in MediaTypeSet(mediaTypes) <==> t in mediaTypes
  {
  }

  /** One SubstItem.replaceAll: every match of the pattern replaced. */
  function ApplyRule(eng: Engine, rule: Rule, data: seq<byte>): seq<byte> {
    eng.replaceAll(rule.rx, data, rule.repl)
  }

  /** The left fold of the rules over `data`: each rule, in list order,
      applied to the output of the rules before it. */
  function ApplyRules(eng: Engine, rules: seq<Rule>, data: seq<byte>): seq<byte>
    decreases |rules|
  {
    if rules == [] then data
    else ApplyRule(eng, rules[|rules| - 1], ApplyRules(eng, rules[..|rules| - 1], data))
  }

  /** Whether a prepared group applies to a response. */
  predicate Matches(eng: Engine, g: Group, mt: string, path: string) {
    mt != "" && |g.rules| > 0 && mt in g.mtypes && eng.matchString(g.rxPath, path)
  }

  predicate AnyMatch(eng: Engine, gs: seq<Group>, mt: string, path: string) {
    exists i :: 0 <= i < |gs| && Matches(eng, gs[i], mt, path)
  }

  /** The body a rewrite produces: every matching group, in configuration
      order, applied to the output of the groups before it. */
  function RewriteBody(eng: Engine, gs: seq<Group>, mt: string, path: string, data: seq<byte>): seq<byte>
    decreases |gs|
  {
    if gs == [] then data
    else
      var prev := RewriteBody(eng, gs[..|gs| - 1], mt, path, data);
      var g := gs[|gs| - 1];
      if Matches(eng, g, mt, path) then ApplyRules(eng, g.rules, prev) else prev
  }

  /** The rules of the matching groups, concatenated in order. */
  function MatchedRules(eng: Engine, gs: seq<Group>, mt: string, path: string): seq<Rule>
    decreases |gs|
  {
    if gs == [] then []
    else
      var g := gs[|gs| - 1];
      MatchedRules(eng, gs[..|gs| - 1], mt, path) + (if Matches(eng, g, mt, path) then g.rules else [])
  }

  /** What Rewrite does to a response. */
  datatype Outcome =
    | PassThrough              // nothing matched: the response is untouched
    | ReadFailed(error: Error) // reading the body failed
    | Rewritten(body: seq<byte>)

  /** Reference definition of Rewrite: untouched unless some group
      matches; otherwise the body is read once and rewritten. */
  function RewriteOutcome(eng: Engine, gs: seq<Group>, mt: string, path: string, body: Body): Outcome {
    if !AnyMatch(eng, gs, mt, path) then PassThrough
    else if body.failure.Some? then ReadFailed(body.failure.value)
    else Rewritten(RewriteBody(eng, gs, mt, path, body.data))
  }

  // ---------------------------------------------------------------------
  // Properties of the fold

  /** Applying two lists of rules in turn is applying their concatenation. */
  lemma {:induction false} ApplyRulesAppend(eng: Engine, a: seq<Rule>, b: seq<Rule>, data: seq<byte>)
    ensures ApplyRules(eng, a + b, data) == ApplyRules(eng, b, ApplyRules(eng, a, data))
    decreases |b|
  {
    if b == [] {
      assert a + b == a;
    } else {
      assert (a + b)[..|a + b| - 1] == a + b[..|b| - 1];
      ApplyRulesAppend(eng, a, b[..|b| - 1], data);
    }
  }

  /** The first rule sees the original data, the rest see its output. */
  lemma ApplyRulesFirst(eng: Engine, rules: seq<Rule>, data: seq<byte>)
    requires rules != []
    ensures ApplyRules(eng, rules, data) == ApplyRules(eng, rules[1..], ApplyRule(eng, rules[0], data))
  {
    assert rules == [rules[0]] + rules[1..];
    ApplyRulesAppend(eng, [rules[0]], rules[1..], data);
    assert [rules[0]][..0] == [];
  }

  /** Two adjacent rules whose replacements commute may be swapped. */
  lemma SwapCommuting(eng: Engine, a: seq<Rule>, r1: Rule, r2: Rule, b: seq<Rule>, data: seq<byte>)
    requires forall d :: ApplyRule(eng, r1, ApplyRule(eng, r2, d)) == ApplyRule(eng, r2, ApplyRule(eng, r1, d))
    ensures ApplyRules(eng, a + [r1, r2] + b, data) == ApplyRules(eng, a + [r2, r1] + b, data)
  {
    var d := ApplyRules(eng, a, data);
    ApplyRulesAppend(eng, a, [r1, r2], data);
    ApplyRulesAppend(eng, a + [r1, r2], b, data);
    ApplyRulesAppend(eng, a, [r2, r1], data);
    ApplyRulesAppend(eng, a + [r2, r1], b, data);
    assert [r1, r2][..1] == [r1] && [r2, r1][..1] == [r2];
  }

  /** Order matters in general: for some engine, two rules applied in the
      two orders give different bodies. */
  lemma OrderMatters()
    ensures exists eng: Engine, r1: Rule, r2: Rule, data: seq<byte> ::
      ApplyRules(eng, [r1, r2], data) != ApplyRules(eng, [r2, r1], data)
  {
    // an engine whose every pattern matches the whole body once
    var eng := Engine(_ => true, (_, _) => true, (_, _, repl) => repl);
    var r1, r2 := Rule(Regexp("a"), [1]), Rule(Regexp("b"), [2]);
    assert [r1, r2][..1] == [r1] && [r2, r1][..1] == [r2];
    assert ApplyRules(eng, [r1, r2], []) == [2];
    assert ApplyRules(eng, [r2, r1], []) == [1];
  }

  /** Without a matching group the body is left as it is. */
  lemma {:induction false} RewriteBodyNoMatch(eng: Engine, gs: seq<Group>, mt: string, path: string, data: seq<byte>)
    requires !AnyMatch(eng, gs, mt, path)
    ensures RewriteBody(eng, gs, mt, path, data) == data
    ensures MatchedRules(eng, gs, mt, path) == []
    decreases |gs|
  {
    if gs != [] {
      var init := gs[..|gs| - 1];
      assert !Matches(eng, gs[|gs| - 1], mt, path);
      forall i | 0 <= i < |init| ensures !Matches(eng, init[i], mt, path) {
        assert init[i] == gs[i];
      }
      RewriteBodyNoMatch(eng, init, mt, path, data);
    }
  }

  /** Rewriting applies the rules of the matching groups, groups in
      configuration order and items in list order, each to the output of
      the one before. */
  lemma {:induction false} RewriteBodyFlattens(eng: Engine, gs: seq<Group>, mt: string, path: string, data: seq<byte>)
    ensures RewriteBody(eng, gs, mt, path, data) == ApplyRules(eng, MatchedRules(eng, gs, mt, path), data)
    decreases |gs|
  {
    if gs != [] {
      var init, g := gs[..|gs| - 1], gs[|gs| - 1];
      RewriteBodyFlattens(eng, init, mt, path, data);
      if Matches(eng, g, mt, path) {
        ApplyRulesAppend(eng, MatchedRules(eng, init, mt, path), g.rules, data);
      } else {
        assert MatchedRules(eng, init, mt, path) + [] == MatchedRules(eng, init, mt, path);
        assert MatchedRules(eng, gs, mt, path) == MatchedRules(eng, init, mt, path);
      }
    }
  }

  /** A group with no items, or whose set lacks the media type, or any
      group when the media type is empty, contributes nothing. */
  lemma {:induction false} RewriteBodySkips(eng: Engine, gs: seq<Group>, g: Group, mt: string, path: string, data: seq<byte>)
    requires mt == "" || |g.rules| == 0 || mt !in g.mtypes
    ensures RewriteBody(eng, gs + [g], mt, path, data) == RewriteBody(eng, gs, mt, path, data)
  {
    assert (gs + [g])[..|gs|] == gs;
  }

  // =====================================================================
  // SubstItem

  class SubstItem {
    const src: string       // Src, the pattern
    const replSrc: string   // Repl, the replacement template
    var rxSrc: Option<Regexp>
    var repl: seq<byte>

    constructor (src: string, replSrc: string)
      ensures this.src == src && this.replSrc == replSrc
      ensures rxSrc == None && repl == []
    {
      this.src := src;
      this.replSrc := replSrc;
      rxSrc := None;
      repl := [];
    }

    /** The rule this item stands for once prepared. */
    function Compiled(): Rule {
      Rule(Regexp(src), Utf8(replSrc))
    }

    predicate Prepared(eng: Engine)
      reads this
    {
      eng.compiles(src) && rxSrc == Some(Compiled().rx) && repl == Compiled().repl
    }

    /** SubstItem.prepare: compile Src and convert Repl, or fail and leave
        the item as it was. */
    method Prepare(eng: Engine) returns (err: Option<Error>)
      modifies this
      ensures err.None? <==> eng.compiles(src)
      ensures err.Some? ==> err == Some(BadPattern(src)) && unchanged(this)
      ensures err.None? ==> Prepared(eng)
    {
      var rx := Compile(eng, src);
      if rx.Err? {
        return Some(rx.error);
      }
      rxSrc := Some(rx.value);
      repl := Utf8(replSrc);
      return None;
    }

    /** SubstItem.replaceAll. */
    method ReplaceAll(eng: Engine, data: seq<byte>) returns (r: seq<byte>)
      requires Prepared(eng)
      ensures r == ApplyRule(eng, Compiled(), data)
    {
      r := eng.replaceAll(rxSrc.value, data, repl);
    }
  }

  function ItemPatterns(items: seq<SubstItem>): (ps: seq<string>)
    ensures |ps| == |items| && forall i :: 0 <= i < |items| ==> ps[i] == items[i].src
  {
    seq(|items|, i requires 0 <= i < |items| => items[i].src)
  }

  function Rules(items: seq<SubstItem>): (rs: seq<Rule>)
    ensures |rs| == |items| && forall i :: 0 <= i < |items| ==> rs[i] == items[i].Compiled()
  {
    seq(|items|, i requires 0 <= i < |items| => items[i].Compiled())
  }

  predicate AllPrepared(eng: Engine, items: seq<SubstItem>)
    reads items
  {
    forall i :: 0 <= i < |items| ==> items[i].Prepared(eng)
  }

  /** SubstItems.prepare: prepares the items in order and returns the
      error of the first one whose pattern does not compile. */
  method PrepareItems(eng: Engine, items: seq<SubstItem>) returns (err: Option<Error>)
    modifies items
    ensures err == FirstInvalid(eng, ItemPatterns(items))
    ensures err.None? ==> AllPrepared(eng, items)
    ensures forall it :: it in items ==> it.Prepared(eng) || unchanged(it)
  {
    var i := 0;
    while i < |items|
      invariant 0 <= i <= |items|
      invariant forall j :: 0 <= j < i ==> items[j].Prepared(eng)
      invariant forall it :: it in items ==> it.Prepared(eng) || unchanged(it)
    {
      err := items[i].Prepare(eng);
      if err.Some? {
        FirstInvalidAt(eng, ItemPatterns(items), i);
        return;
      }
      i := i + 1;
    }
    err := None;
  }

  /** SubstItems.replaceAll: the items' replacements in list order. */
  method ReplaceAllItems(eng: Engine, items: seq<SubstItem>, data: seq<byte>) returns (r: seq<byte>)
    requires AllPrepared(eng, items)
    ensures r == ApplyRules(eng, Rules(items), data)
  {
    r := data;
    var i := 0;
    while i < |items|
      invariant 0 <= i <= |items|
      invariant r == ApplyRules(eng, Rules(items)[..i], data)
    {
      assert Rules(items)[..i + 1][..i] == Rules(items)[..i];
      r := items[i].ReplaceAll(eng, r);
      i := i + 1;
    }
    assert Rules(items)[..i] == Rules(items);
  }

  // =====================================================================
  // SubstGroup

  class SubstGroup {
    const mediaTypes: seq<string>   // MediaTypes
    const path: string              // Path, the path pattern
    const items: seq<SubstItem>     // Items
    var mtypes: set<string>
    var rxPath: Option<Regexp>

    constructor (mediaTypes: seq<string>, path: string, items: seq<SubstItem>)
      ensures this.mediaTypes == mediaTypes && this.path == path && this.items == items
      ensures mtypes == {} && rxPath == None
    {
      this.mediaTypes := mediaTypes;
      this.path := path;
      this.items := items;
      mtypes := {};
      rxPath := None;
    }

    /** The group this one stands for once prepared. */
    function View(): Group {
      Group(MediaTypeSet(mediaTypes), Regexp(path), Rules(items))
    }

    /** The patterns prepare compiles, in the order it compiles them. */
    function Patterns(): seq<string> {
      [path] + ItemPatterns(items)
    }

    /** The group's own fields are those prepare sets on success. */
    predicate FieldsPrepared(eng: Engine)
      reads this
    {
      mtypes == MediaTypeSet(mediaTypes) && eng.compiles(path) && rxPath == Some(Regexp(path))
    }

    predicate Prepared(eng: Engine)
      reads this, items
    {
      FieldsPrepared(eng) && AllPrepared(eng, items)
    }

    /** SubstGroup.isMatch. The precondition is what keeps the Go code from
        dereferencing a nil path regexp. */
    function IsMatch(eng: Engine, mt: string, reqPath: string): (matched: bool)
      reads this
      requires mt != "" && |items| > 0 && mt in mtypes ==> rxPath.Some?
      ensures mt == "" ==> !matched
      ensures |items| == 0 ==> !matched
      ensures mt !in mtypes ==> !matched
    {
      if mt == "" then false
      else if |items| == 0 then false
      else if mt !in mtypes then false
      else eng.matchString(rxPath.value, reqPath)
    }

    /** A prepared group matches exactly when its view does. */
    lemma IsMatchView(eng: Engine, mt: string, reqPath: string)
      requires Prepared(eng)
      ensures IsMatch(eng, mt, reqPath) == Matches(eng, View(), mt, reqPath)
    {
    }

    /** SubstGroup.prepare: builds the media-type set, then compiles the
        path pattern and prepares the items, returning the first error. */
    method Prepare(eng: Engine) returns (err: Option<Error>)
      modifies this, items
      ensures mtypes == MediaTypeSet(mediaTypes)
      ensures err == FirstInvalid(eng, Patterns())
      ensures err.None? ==> Prepared(eng)
      ensures !eng.compiles(path) ==> rxPath == old(rxPath) && forall it :: it in items ==> unchanged(it)
      ensures forall it :: it in items ==> it.Prepared(eng) || unchanged(it)
    {
      if |mediaTypes| == 0 {
        mtypes := DefaultMediaTypes;
      } else {
        mtypes := {};
        var i := 0;
        while i < |mediaTypes|
          modifies this
          invariant 0 <= i <= |mediaTypes|
          invariant mtypes == set t | t in mediaTypes[..i]
          invariant rxPath == old(rxPath)
        {
          assert mediaTypes[..i + 1] == mediaTypes[..i] + [mediaTypes[i]];
          mtypes := mtypes + {mediaTypes[i]};
          i := i + 1;
        }
        assert mediaTypes[..i] == mediaTypes;
      }

      var rx := Compile(eng, path);
      assert Patterns()[0] == path && Patterns()[1..] == ItemPatterns(items);
      if rx.Err? {
        return Some(rx.error);
      }
      rxPath := Some(rx.value);
      err := PrepareItems(eng, items);
    }

    /** SubstGroup.replaceAll: the items' replacements in list order. */
    method ReplaceAll(eng: Engine, data: seq<byte>) returns (r: seq<byte>)
      requires AllPrepared(eng, items)
      ensures r == ApplyRules(eng, View().rules, data)
    {
      r := data;
      var i := 0;
      while i < |items|
        invariant 0 <= i <= |items|
        invariant r == ApplyRules(eng, Rules(items)[..i], data)
      {
        assert Rules(items)[..i + 1][..i] == Rules(items)[..i];
        r := items[i].ReplaceAll(eng, r);
        i := i + 1;
      }
      assert Rules(items)[..i] == Rules(items);
    }
  }

  // =====================================================================
  // Substitutions

  /** Every pattern of the configuration, in the order prepare compiles them. */
  function AllPatterns(groups: seq<SubstGroup>): seq<string>
    decreases |groups|
  {
    if groups == [] then []
    else AllPatterns(groups[..|groups| - 1]) + groups[|groups| - 1].Patterns()
  }

  lemma {:induction false} AllPatternsAppend(a: seq<SubstGroup>, b: seq<SubstGroup>)
    ensures AllPatterns(a + b) == AllPatterns(a) + AllPatterns(b)
    decreases |b|
  {
    if b == [] {
      assert a + b == a;
    } else {
      assert (a + b)[..|a + b| - 1] == a + b[..|b| - 1];
      AllPatternsAppend(a, b[..|b| - 1]);
    }
  }

  function ItemsOf(groups: seq<SubstGroup>): (r: set<SubstItem>)
    ensures forall i, j :: 0 <= i < |groups| && 0 <= j < |groups[i].items| ==> groups[i].items[j] in r
  {
    set i, j | 0 <= i < |groups| && 0 <= j < |groups[i].items| :: groups[i].items[j]
  }

  predicate AllGroupsPrepared(eng: Engine, groups: seq<SubstGroup>)
    reads groups, ItemsOf(groups)
  {
    forall i :: 0 <= i < |groups| ==> groups[i].Prepared(eng)
  }

  /** The value a prepared configuration stands for. */
  function Views(groups: seq<SubstGroup>): (gs: seq<Group>)
    ensures |gs| == |groups| && forall i :: 0 <= i < |groups| ==> gs[i] == groups[i].View()
  {
    seq(|groups|, i requires 0 <= i < |groups| => groups[i].View())
  }

  /** A prepared group's patterns all compile. */
  lemma PreparedCompiles(eng: Engine, g: SubstGroup)
    requires g.Prepared(eng)
    ensures FirstInvalid(eng, g.Patterns()) == None
  {
    forall i | 0 <= i < |g.Patterns()| ensures eng.compiles(g.Patterns()[i]) {
      if i > 0 { assert g.items[i - 1].Prepared(eng); }
    }
  }

  /** Compiling the groups up to `k` adds group k's patterns; when those
      fail, so does the whole configuration, with the same error. */
  lemma PatternsStep(eng: Engine, groups: seq<SubstGroup>, k: nat)
    requires k < |groups| && FirstInvalid(eng, AllPatterns(groups[..k])) == None
    ensures FirstInvalid(eng, AllPatterns(groups[..k + 1])) == FirstInvalid(eng, groups[k].Patterns())
    ensures FirstInvalid(eng, groups[k].Patterns()).Some? ==>
      FirstInvalid(eng, AllPatterns(groups)) == FirstInvalid(eng, groups[k].Patterns())
  {
    assert groups[..k + 1][..k] == groups[..k];
    assert AllPatterns(groups[..k + 1]) == AllPatterns(groups[..k]) + groups[k].Patterns();
    FirstInvalidAppend(eng, AllPatterns(groups[..k]), groups[k].Patterns());
    assert groups == groups[..k + 1] + groups[k + 1..];
    AllPatternsAppend(groups[..k + 1], groups[k + 1..]);
    FirstInvalidAppend(eng, AllPatterns(groups[..k + 1]), AllPatterns(groups[k + 1..]));
  }

  /** Substitutions.prepare: prepares the groups in order; succeeds exactly
      when every path and item pattern compiles, and otherwise returns the
      error of the first one that does not. */
  method PrepareAll(eng: Engine, groups: seq<SubstGroup>) returns (err: Option<Error>)
    modifies groups, ItemsOf(groups)
    ensures err == FirstInvalid(eng, AllPatterns(groups))
    ensures err.None? ==> AllGroupsPrepared(eng, groups)
  {
    var k := 0;
    while k < |groups|
      invariant 0 <= k <= |groups|
      invariant FirstInvalid(eng, AllPatterns(groups[..k])) == None
      invariant forall j :: 0 <= j < k ==> groups[j].FieldsPrepared(eng)
      invariant forall j, i :: 0 <= j < k && 0 <= i < |groups[j].items| ==> groups[j].items[i].Prepared(eng)
    {
      var g := groups[k];
      label L:
      err := g.Prepare(eng);
      if err.Some? {
        assert err == FirstInvalid(eng, AllPatterns(groups)) by { PatternsStep(eng, groups, k); }
        return;
      }
      assert FirstInvalid(eng, AllPatterns(groups[..k + 1])) == None by { PatternsStep(eng, groups, k); }
      forall j | 0 <= j < k + 1 ensures groups[j].FieldsPrepared(eng) {
        if j < k && groups[j] != g {
          assert old@L(groups[j].FieldsPrepared(eng));
          assert groups[j].mtypes == old@L(groups[j].mtypes) && groups[j].rxPath == old@L(groups[j].rxPath);
        }
      }
      forall j, i | 0 <= j < k + 1 && 0 <= i < |groups[j].items| ensures groups[j].items[i].Prepared(eng) {
        var it := groups[j].items[i];
        if it !in g.items {
          assert old@L(it.Prepared(eng));
          assert it.rxSrc == old@L(it.rxSrc) && it.repl == old@L(it.repl);
        }
      }
      k := k + 1;
    }
    assert groups[..k] == groups;
    err := None;
  }

  // =====================================================================
  // The response hook

  /** readBody: ioutil.ReadAll of the body -- all its bytes, and its error
      if the stream fails. */
  method ReadBody(r: Response) returns (data: seq<byte>, err: Option<Error>)
    modifies r
    ensures data == old(r.body).data && err == old(r.body).failure
    ensures r.body == Drained(old(r.body)) && r.bodyReads == old(r.bodyReads) + 1
    ensures r.header == old(r.header) && r.contentLength == old(r.contentLength)
  {
    data, err := r.body.data, r.body.failure;
    r.body := Drained(r.body);
    r.bodyReads := r.bodyReads + 1;
  }

  /** setBody: the body yields exactly `b`, and both the Content-Length
      header and the ContentLength field give its length. */
  method SetBody(r: Response, b: seq<byte>)
    modifies r
    ensures r.body == BytesBody(b)
    ensures r.header == SetHeader(old(r.header), "Content-Length", Decimal(|b|))
    ensures r.contentLength == |b|
    ensures r.bodyReads == old(r.bodyReads)
  {
    r.body := BytesBody(b);
    r.header := SetHeader(r.header, "Content-Length", Decimal(|b|));
    r.contentLength := |b|;
  }

  lemma AnyMatchStep(eng: Engine, gs: seq<Group>, i: nat, mt: string, path: string)
    requires i < |gs|
    ensures AnyMatch(eng, gs[..i + 1], mt, path) <==> AnyMatch(eng, gs[..i], mt, path) || Matches(eng, gs[i], mt, path)
  {
    assert gs[..i + 1][i] == gs[i];
    if AnyMatch(eng, gs[..i + 1], mt, path) {
      var j :| 0 <= j < i + 1 && Matches(eng, gs[..i + 1][j], mt, path);
      if j < i { assert gs[..i][j] == gs[..i + 1][j]; }
    }
    if AnyMatch(eng, gs[..i], mt, path) {
      var j :| 0 <= j < i && Matches(eng, gs[..i][j], mt, path);
      assert gs[..i + 1][j] == gs[..i][j];
    }
  }

  lemma RewriteBodyStep(eng: Engine, gs: seq<Group>, i: nat, mt: string, path: string, data: seq<byte>)
    requires i < |gs|
    ensures RewriteBody(eng, gs[..i + 1], mt, path, data) ==
      if Matches(eng, gs[i], mt, path) then ApplyRules(eng, gs[i].rules, RewriteBody(eng, gs[..i], mt, path, data))
      else RewriteBody(eng, gs[..i], mt, path, data)
  {
    assert gs[..i + 1][..i] == gs[..i] && gs[..i + 1][i] == gs[i];
  }

  /** A response's body, header and ContentLength after a rewrite, how
      often the body was read, and the error returned. */
  datatype After = After(body: Body, header: Header, contentLength: int, readCount: nat, err: Option<Error>)

  /** The response outcome `o` leaves behind, from body, header and
      ContentLength `cl`. */
  function OutcomeAfter(o: Outcome, body: Body, header: Header, cl: int): After {
    match o
    case PassThrough => After(body, header, cl, 0, None)
    case ReadFailed(e) => After(Drained(body), header, cl, 1, Some(e))
    case Rewritten(b) => After(BytesBody(b), SetHeader(header, "Content-Length", Decimal(|b|)), |b|, 1, None)
  }

  /** The state Rewrite leaves `r` in for outcome `o`, and its error. */
  twostate predicate Rewrote(r: Response, o: Outcome, new err: Option<Error>)
    reads r
  {
    var a := OutcomeAfter(o, old(r.body), old(r.header), old(r.contentLength));
    && err == a.err && r.body == a.body && r.header == a.header
    && r.contentLength == a.contentLength && r.bodyReads == old(r.bodyReads) + a.readCount
  }

  /** Substitutions.Rewrite: runs the groups in order, reads the body at the
      first matching group only, feeds each matching group the previous
      one's output, and sets the body only when some group matched. */
  method Rewrite(eng: Engine, parse: MediaTypeParser, groups: seq<SubstGroup>, r: Response)
    returns (err: Option<Error>)
    requires AllGroupsPrepared(eng, groups)
    modifies r
    ensures Rewrote(r, RewriteOutcome(eng, Views(groups), MediaType(parse, old(r.header)), r.path, old(r.body)), err)
  {
    var mt := MediaType(parse, r.header);
    var path := r.path;
    ghost var gs := Views(groups);
    ghost var body0 := r.body;
    var data: Option<seq<byte>> := None;
    var i := 0;
    while i < |groups|
      invariant 0 <= i <= |groups|
      invariant data.None? <==> !AnyMatch(eng, gs[..i], mt, path)
      invariant data.None? ==> r.body == body0 && r.bodyReads == old(r.bodyReads)
      invariant data.Some? ==>
        && body0.failure == None && r.body == Drained(body0) && r.bodyReads == old(r.bodyReads) + 1
        && data.value == RewriteBody(eng, gs[..i], mt, path, body0.data)
      invariant r.header == old(r.header) && r.contentLength == old(r.contentLength)
    {
      var g := groups[i];
      assert g.Prepared(eng);
      g.IsMatchView(eng, mt, path);
      AnyMatchStep(eng, gs, i, mt, path);
      RewriteBodyStep(eng, gs, i, mt, path, body0.data);
      if g.IsMatch(eng, mt, path) {
        if data.None? {
          RewriteBodyNoMatch(eng, gs[..i], mt, path, body0.data);
          assert AnyMatch(eng, gs, mt, path) by { assert Matches(eng, gs[i], mt, path); }
          var d, e := ReadBody(r);
          if e.Some? {
            return e;
          }
          data := Some(d);
        }
        var nd := g.ReplaceAll(eng, data.value);
        data := Some(nd);
      }
      i := i + 1;
    }
    assert gs[..i] == gs;
    if data.None? {
      return None;
    }
    SetBody(r, data.value);
    return None;
  }

  // =====================================================================
  // Rewrite as written: nil as the "not read yet" sentinel

  /** A Go []byte, in which nil and an empty slice are told apart. */
  datatype GoBytes = Nil | Bytes(b: seq<byte>)

  /** The bytes of a slice; nil has none. */
  function BytesOf(d: GoBytes): seq<byte> {
    if d.Nil? then [] else d.b
  }

  /** regexp's ReplaceAll appends the pieces of its result to a nil slice,
      so a result without bytes is nil. */
  function GoApplyRule(eng: Engine, rule: Rule, d: GoBytes): GoBytes {
    var r := ApplyRule(eng, rule, BytesOf(d));
    if r == [] then Nil else Bytes(r)
  }

  /** SubstGroup.replaceAll over Go slices. */
  function GoApplyRules(eng: Engine, rules: seq<Rule>, d: GoBytes): GoBytes
    decreases |rules|
  {
    if rules == [] then d
    else GoApplyRule(eng, rules[|rules| - 1], GoApplyRules(eng, rules[..|rules| - 1], d))
  }

  /** Over Go slices the fold computes the same bytes, and after at least
      one rule it is nil exactly when it has no bytes. */
  lemma {:induction false} GoApplyRulesBytes(eng: Engine, rules: seq<Rule>, d: GoBytes)
    ensures BytesOf(GoApplyRules(eng, rules, d)) == ApplyRules(eng, rules, BytesOf(d))
    ensures |rules| > 0 ==> (GoApplyRules(eng, rules, d).Nil? <==> ApplyRules(eng, rules, BytesOf(d)) == [])
    ensures GoApplyRules(eng, rules, d).Bytes? && |rules| > 0 ==> GoApplyRules(eng, rules, d).b != []
    decreases |rules|
  {
    if rules != [] {
      GoApplyRulesBytes(eng, rules[..|rules| - 1], d);
    }
  }

  /** The loop of Rewrite as written, after some groups: stopped by a read
      error, or running with `data` and the number of body reads so far. */
  datatype GoRun = Stopped(error: Error, readCount: nat) | Running(data: GoBytes, readCount: nat)

  /** The loop of Rewrite as written: a matching group reads the body
      whenever `data` is nil, which is also the case after a group whose
      result is empty; a second read finds the body drained. */
  function GoRewriteRun(eng: Engine, gs: seq<Group>, mt: string, path: string, body: Body): GoRun
    decreases |gs|
  {
    if gs == [] then Running(Nil, 0)
    else
      var g := gs[|gs| - 1];
      match GoRewriteRun(eng, gs[..|gs| - 1], mt, path, body)
      case Stopped(e, n) => Stopped(e, n)
      case Running(d, n) =>
        if !Matches(eng, g, mt, path) then Running(d, n)
        else if d.Bytes? then Running(GoApplyRules(eng, g.rules, d), n)
        else
          var src := if n == 0 then body else Drained(body);
          if src.failure.Some? then Stopped(src.failure.value, n + 1)
          else Running(GoApplyRules(eng, g.rules, Bytes(src.data)), n + 1)
  }

  /** The response Rewrite as written leaves behind: setBody is skipped
      whenever the final data is nil, even after the body was read. */
  function RewriteAsWritten(eng: Engine, gs: seq<Group>, mt: string, path: string, body: Body, header: Header, cl: int): After {
    match GoRewriteRun(eng, gs, mt, path, body)
    case Stopped(e, n) => After(Drained(body), header, cl, n, Some(e))
    case Running(Nil, n) => After(if n == 0 then body else Drained(body), header, cl, n, None)
    case Running(Bytes(b), n) => After(BytesBody(b), SetHeader(header, "Content-Length", Decimal(|b|)), |b|, n, None)
  }

  /** The loop as written tracks the reference: it stops exactly when some
      group matches and the body fails, it has read the body exactly when
      some group matched, and its data then holds the rewritten bytes. */
  lemma {:induction false} GoRewriteRunTracks(eng: Engine, gs: seq<Group>, mt: string, path: string, body: Body)
    ensures GoRewriteRun(eng, gs, mt, path, body).Stopped? <==> AnyMatch(eng, gs, mt, path) && body.failure.Some?
    ensures GoRewriteRun(eng, gs, mt, path, body).Stopped? ==>
      GoRewriteRun(eng, gs, mt, path, body) == Stopped(body.failure.value, 1)
    ensures GoRewriteRun(eng, gs, mt, path, body).Running? ==>
      var run := GoRewriteRun(eng, gs, mt, path, body);
      && (run.readCount == 0 <==> !AnyMatch(eng, gs, mt, path))
      && (run.readCount == 0 ==> run.data.Nil?)
      && (run.readCount > 0 ==> body.failure.None? && BytesOf(run.data) == RewriteBody(eng, gs, mt, path, body.data))
      && (run.data.Bytes? ==> run.data.b != [])
    decreases |gs|
  {
    if gs != [] {
      var pre := gs[..|gs| - 1];
      var g := gs[|gs| - 1];
      GoRewriteRunTracks(eng, pre, mt, path, body);
      AnyMatchStep(eng, gs, |gs| - 1, mt, path);
      assert gs[..|gs| - 1 + 1] == gs;
      var run := GoRewriteRun(eng, pre, mt, path, body);
      if run.Running? && Matches(eng, g, mt, path) {
        if run.data.Bytes? {
          GoApplyRulesBytes(eng, g.rules, run.data);
        } else {
          var src := if run.readCount == 0 then body else Drained(body);
          GoApplyRulesBytes(eng, g.rules, Bytes(src.data));
          if run.readCount > 0 {
            assert BytesOf(Bytes(src.data)) == RewriteBody(eng, pre, mt, path, body.data);
          } else {
            RewriteBodyNoMatch(eng, pre, mt, path, body.data);
          }
        }
      }
    }
  }

  /** As written, Rewrite leaves the same response as the reference unless
      the rewritten body is empty. Then the body is drained but setBody is
      skipped, so Content-Length and ContentLength keep the upstream value. */
  lemma AsWrittenAgrees(eng: Engine, gs: seq<Group>, mt: string, path: string, body: Body, header: Header, cl: int)
    ensures RewriteOutcome(eng, gs, mt, path, body) != Rewritten([]) ==>
      var a := RewriteAsWritten(eng, gs, mt, path, body, header, cl);
      var c := OutcomeAfter(RewriteOutcome(eng, gs, mt, path, body), body, header, cl);
      a.body == c.body && a.header == c.header && a.contentLength == c.contentLength && a.err == c.err
    ensures RewriteOutcome(eng, gs, mt, path, body) == Rewritten([]) ==>
      RewriteAsWritten(eng, gs, mt, path, body, header, cl) ==
        After(BytesBody([]), header, cl, GoRewriteRun(eng, gs, mt, path, body).readCount, None)
  {
    GoRewriteRunTracks(eng, gs, mt, path, body);
    if !AnyMatch(eng, gs, mt, path) {
      RewriteBodyNoMatch(eng, gs, mt, path, body.data);
    }
  }

  /** A body "abc" whose only rule deletes it: as written, the response
      keeps Content-Length 3 and ContentLength 3 with a drained body, where
      the reference sets both to 0. */
  lemma AsWrittenKeepsStaleLength()
    ensures
      var eng := Engine(_ => true, (_, _) => true, (_, _, _) => []);
      var gs := [Group({"text/html"}, Regexp(""), [Rule(Regexp("abc"), [])])];
      var body := BytesBody([97, 98, 99]);
      var header := map["Content-Length" := ["3"]];
      && RewriteAsWritten(eng, gs, "text/html", "/", body, header, 3) == After(Body([], None), header, 3, 1, None)
      && OutcomeAfter(RewriteOutcome(eng, gs, "text/html", "/", body), body, header, 3)
         == After(Body([], None), map["Content-Length" := ["0"]], 0, 1, None)
  {
    var eng := Engine(_ => true, (_, _) => true, (_, _, _) => []);
    var gs := [Group({"text/html"}, Regexp(""), [Rule(Regexp("abc"), [])])];
    assert Matches(eng, gs[0], "text/html", "/");
    assert gs[..0] == [];
    assert Decimal(0) == "0";
  }
}
