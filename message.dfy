/** Structured messages: rewrite rules keyed by path prefix, looked up by
    collecting every key that is a prefix of the request path. */
module Messages {
  import opened Base
  import opened GoStrings
  import opened Regex

  // =====================================================================
  // Message and Messages

  class Message {
    const src: string
    const replSrc: string
    var rx: Option<Regexp>
    var repl: seq<byte>

    constructor (src: string, replSrc: string)
      ensures this.src == src && this.replSrc == replSrc
      ensures rx == None && repl == []
    {
      this.src := src;
      this.replSrc := replSrc;
      rx := None;
      repl := [];
    }

    predicate Prepared(eng: Engine)
      reads this
    {
      eng.compiles(src) && rx == Some(Regexp(src)) && repl == Utf8(replSrc)
    }

    /** Message.prepare: compile Src and convert Repl, or fail and leave the
        message as it was. */
    method Prepare(eng: Engine) returns (err: Option<Error>)
      modifies this
      ensures err.None? <==> eng.compiles(src)
      ensures err.Some? ==> err == Some(BadPattern(src)) && unchanged(this)
      ensures err.None? ==> Prepared(eng)
    {
      var r := Compile(eng, src);
      if r.Err? {
        return Some(r.error);
      }
      rx := Some(r.value);
      repl := Utf8(replSrc);
      return None;
    }
  }

  function Sources(msgs: seq<Message>): (ps: seq<string>)
    ensures |ps| == |msgs| && forall i :: 0 <= i < |msgs| ==> ps[i] == msgs[i].src
  {
    seq(|msgs|, i requires 0 <= i < |msgs| => msgs[i].src)
  }

  predicate AllPrepared(eng: Engine, msgs: seq<Message>)
    reads msgs
  {
    forall i :: 0 <= i < |msgs| ==> msgs[i].Prepared(eng)
  }

  /** Messages.prepare: prepares the messages in order and returns the
      error of the first one whose pattern does not compile. */
  method PrepareMessages(eng: Engine, msgs: seq<Message>) returns (err: Option<Error>)
    modifies msgs
    ensures err == FirstInvalid(eng, Sources(msgs))
    ensures err.None? ==> AllPrepared(eng, msgs)
    ensures forall m :: m in msgs ==> m.Prepared(eng) || unchanged(m)
  {
    var i := 0;
    while i < |msgs|
      invariant 0 <= i <= |msgs|
      invariant forall j :: 0 <= j < i ==> msgs[j].Prepared(eng)
      invariant forall m :: m in msgs ==> m.Prepared(eng) || unchanged(m)
    {
      err := msgs[i].Prepare(eng);
      if err.Some? {
        FirstInvalidAt(eng, Sources(msgs), i);
        return;
      }
      i := i + 1;
    }
    err := None;
  }

  // =====================================================================
  // StructuredMessages

  type StructuredMessages = map<string, seq<Message>>

  function MessagesIn(sm: StructuredMessages): (r: set<Message>)
    ensures forall k, i :: k in sm && 0 <= i < |sm[k]| ==> sm[k][i] in r
  {
    set k, i | k in sm && 0 <= i < |sm[k]| :: sm[k][i]
  }

  /** Every pattern of every list compiles. */
  predicate AllValid(eng: Engine, sm: StructuredMessages) {
    forall k, i :: k in sm && 0 <= i < |sm[k]| ==> eng.compiles(sm[k][i].src)
  }

  /** StructuredMessages.prepare. The lists are visited in map order, which
      Go leaves unspecified: the error returned is the first error of one of
      the lists that has one. */
  method PrepareStructured(eng: Engine, sm: StructuredMessages) returns (err: Option<Error>)
    modifies MessagesIn(sm)
    ensures err.None? <==> AllValid(eng, sm)
    ensures err.Some? ==> exists k :: k in sm && err == FirstInvalid(eng, Sources(sm[k]))
    ensures err.None? ==> forall k :: k in sm ==> AllPrepared(eng, sm[k])
  {
    var rest := sm.Keys;
    while rest != {}
      invariant rest <= sm.Keys
      invariant forall k :: k in sm && k !in rest ==> AllPrepared(eng, sm[k])
      decreases rest
    {
      var k :| k in rest;
      err := PrepareMessages(eng, sm[k]);
      if err.Some? {
        assert !AllValid(eng, sm) by {
          var i :| 0 <= i < |sm[k]| && !eng.compiles(Sources(sm[k])[i]) && err.value == BadPattern(Sources(sm[k])[i]);
        }
        return;
      }
      rest := rest - {k};
    }
    err := None;
    assert AllValid(eng, sm) by {
      forall k, i | k in sm && 0 <= i < |sm[k]| ensures eng.compiles(sm[k][i].src) {
        assert sm[k][i].Prepared(eng);
      }
    }
  }

  // ---------------------------------------------------------------------
  // Reference definitions of the lookup

  /** The keys among `keys` that are prefixes of `s` of length at most `n`,
      shortest first. */
  function PrefixesUpTo(keys: set<string>, s: string, n: nat): (r: seq<string>)
    requires n <= |s|
    ensures forall x :: x in r ==> x in keys
  {
    (if n == 0 then [] else PrefixesUpTo(keys, s, n - 1)) + (if s[..n] in keys then [s[..n]] else [])
  }

  /** Every key that is a prefix of `s`, shortest first. */
  function PrefixKeys(keys: set<string>, s: string): (r: seq<string>)
    ensures forall x :: x in r ==> x in keys
  {
    PrefixesUpTo(keys, s, |s|)
  }

  /** Each key listed is the prefix of `s` of its own length, at most `n`
      long, and the lengths strictly increase along the list. */
  lemma {:induction false} PrefixesUpToShape(keys: set<string>, s: string, n: nat)
    requires n <= |s|
    ensures forall i :: 0 <= i < |PrefixesUpTo(keys, s, n)| ==>
      |PrefixesUpTo(keys, s, n)[i]| <= n && PrefixesUpTo(keys, s, n)[i] == s[..|PrefixesUpTo(keys, s, n)[i]|]
    ensures forall i, j :: 0 <= i < j < |PrefixesUpTo(keys, s, n)| ==>
      |PrefixesUpTo(keys, s, n)[i]| < |PrefixesUpTo(keys, s, n)[j]|
  {
    if n > 0 {
      PrefixesUpToShape(keys, s, n - 1);
      var q := PrefixesUpTo(keys, s, n - 1);
      if s[..n] in keys {
        assert PrefixesUpTo(keys, s, n) == q + [s[..n]];
      } else {
        assert PrefixesUpTo(keys, s, n) == q;
      }
    }
  }

  /** Every key that is a prefix of `s` of length at most `n` is listed. */
  lemma {:induction false} PrefixesUpToComplete(keys: set<string>, s: string, n: nat)
    requires n <= |s|
    ensures forall m :: 0 <= m <= n && s[..m] in keys ==> s[..m] in PrefixesUpTo(keys, s, n)
  {
    if n > 0 {
      PrefixesUpToComplete(keys, s, n - 1);
    }
  }

  /** The keys a lookup of `s` finds are exactly the keys that are prefixes
      of `s`, listed without repetition and in ascending order. Because they
      are prefixes of one string, ascending order is shortest first. */
  lemma PrefixKeysSpec(keys: set<string>, s: string)
    ensures forall x :: x in PrefixKeys(keys, s) <==> x in keys && HasPrefix(s, x)
    ensures StrictlySorted(PrefixKeys(keys, s))
    ensures forall i, j :: 0 <= i < j < |PrefixKeys(keys, s)| ==> |PrefixKeys(keys, s)[i]| < |PrefixKeys(keys, s)[j]|
  {
    var p := PrefixKeys(keys, s);
    PrefixesUpToShape(keys, s, |s|);
    PrefixesUpToComplete(keys, s, |s|);
    forall x ensures x in p <==> x in keys && HasPrefix(s, x) {
      if x in p {
        var i :| 0 <= i < |p| && p[i] == x;
      }
      if x in keys && HasPrefix(s, x) {
        assert x == s[..|x|];
      }
    }
    forall i, j | 0 <= i < j < |p| ensures Less(p[i], p[j]) {
      assert p[j][..|p[i]|] == s[..|p[i]|];
      ProperPrefixLess(p[i], p[j]);
    }
  }

  /** The number of messages under `keys`. */
  function Total(sm: StructuredMessages, keys: seq<string>): nat
    requires forall k :: k in keys ==> k in sm
  {
    if keys == [] then 0 else Total(sm, keys[..|keys| - 1]) + |sm[keys[|keys| - 1]]|
  }

  /** The lists under `keys`, concatenated in order. */
  function Concat(sm: StructuredMessages, keys: seq<string>): seq<Message>
    requires forall k :: k in keys ==> k in sm
  {
    if keys == [] then [] else Concat(sm, keys[..|keys| - 1]) + sm[keys[|keys| - 1]]
  }

  lemma {:induction false} TotalAppend(sm: StructuredMessages, a: seq<string>, b: seq<string>)
    requires forall k :: k in a + b ==> k in sm
    ensures Total(sm, a + b) == Total(sm, a) + Total(sm, b)
    decreases |b|
  {
    if b != [] {
      assert (a + b)[..|a + b| - 1] == a + b[..|b| - 1];
      TotalAppend(sm, a, b[..|b| - 1]);
    } else {
      assert a + b == a;
    }
  }

  lemma {:induction false} ConcatAppend(sm: StructuredMessages, a: seq<string>, b: seq<string>)
    requires forall k :: k in a + b ==> k in sm
    ensures Concat(sm, a + b) == Concat(sm, a) + Concat(sm, b)
    decreases |b|
  {
    if b != [] {
      assert (a + b)[..|a + b| - 1] == a + b[..|b| - 1];
      ConcatAppend(sm, a, b[..|b| - 1]);
    } else {
      assert a + b == a;
    }
  }

  /** The concatenation holds exactly as many messages as the total counts. */
  lemma {:induction false} ConcatLength(sm: StructuredMessages, keys: seq<string>)
    requires forall k :: k in keys ==> k in sm
    ensures |Concat(sm, keys)| == Total(sm, keys)
  {
    if keys != [] {
      ConcatLength(sm, keys[..|keys| - 1]);
    }
  }

  /** The total does not depend on the order of the keys. */
  lemma {:induction false} TotalPermutation(sm: StructuredMessages, a: seq<string>, b: seq<string>)
    requires forall k :: k in a ==> k in sm
    requires multiset(a) == multiset(b)
    ensures forall k :: k in b ==> k in sm
    ensures Total(sm, a) == Total(sm, b)
    decreases |a|
  {
    assert forall k :: k in b ==> k in sm by {
      forall k | k in b ensures k in sm {
        assert k in multiset(b);
      }
    }
    if a != [] {
      var x := a[|a| - 1];
      assert x in multiset(b);
      var i :| 0 <= i < |b| && b[i] == x;
      var b' := RemoveAt(a, b, i);
      TotalPermutation(sm, a[..|a| - 1], b');
      TotalRemoveAt(sm, b, i);
    } else {
      assert |b| == |multiset(b)| == 0;
    }
  }

  /** Removing one occurrence of the last element of `a` from `b`. */
  lemma RemoveAt(a: seq<string>, b: seq<string>, i: nat) returns (b': seq<string>)
    requires multiset(a) == multiset(b) && a != [] && i < |b| && b[i] == a[|a| - 1]
    ensures b' == b[..i] + b[i + 1..]
    ensures multiset(a[..|a| - 1]) == multiset(b')
  {
    b' := b[..i] + b[i + 1..];
    assert a == a[..|a| - 1] + [a[|a| - 1]];
    assert b == b[..i] + ([b[i]] + b[i + 1..]);
    assert multiset(b) == multiset(b[..i]) + (multiset{b[i]} + multiset(b[i + 1..]));
    assert multiset(b) == multiset(b') + multiset{b[i]};
    MultisetCancel(multiset(a[..|a| - 1]), multiset(b'), b[i]);
  }

  lemma MultisetCancel(p: multiset<string>, q: multiset<string>, x: string)
    requires p + multiset{x} == q + multiset{x}
    ensures p == q
  {
    assert p == (p + multiset{x}) - multiset{x};
    assert q == (q + multiset{x}) - multiset{x};
  }

  lemma TotalRemoveAt(sm: StructuredMessages, b: seq<string>, i: nat)
    requires forall k :: k in b ==> k in sm
    requires i < |b|
    ensures Total(sm, b) == Total(sm, b[..i] + b[i + 1..]) + |sm[b[i]]|
  {
    assert b == b[..i] + [b[i]] + b[i + 1..];
    TotalAppend(sm, b[..i] + [b[i]], b[i + 1..]);
    TotalAppend(sm, b[..i], [b[i]]);
    TotalAppend(sm, b[..i], b[i + 1..]);
    assert [b[i]][..0] == [];
  }

  // ---------------------------------------------------------------------
  // findKeys and getMessages

  /** StructuredMessages.findKeys: the keys that are prefixes of `s`,
      visited in map order and then sorted, and the number of messages
      under them. */
  method FindKeys(sm: StructuredMessages, s: string) returns (keys: seq<string>, sum: int)
    ensures forall k :: k in keys <==> k in sm && HasPrefix(s, k)
    ensures StrictlySorted(keys)
    ensures keys == PrefixKeys(sm.Keys, s)
    ensures sum == Total(sm, keys)
  {
    var found: seq<string> := [];
    sum := 0;
    var rest := sm.Keys;
    while rest != {}
      invariant rest <= sm.Keys
      invariant forall k :: k in found <==> k in sm && k !in rest && HasPrefix(s, k)
      invariant Distinct(found)
      invariant sum == Total(sm, found)
      decreases rest
    {
      var k :| k in rest;
      if HasPrefix(s, k) {
        assert (found + [k])[..|found|] == found;
        found := found + [k];
        sum := sum + |sm[k]|;
      }
      rest := rest - {k};
    }
    keys := SortStrings(found);
    PermutationDistinct(found, keys);
    SortedDistinct(keys);
    assert forall k :: k in keys <==> k in found by {
      forall k ensures k in keys <==> k in found {
        assert k in keys <==> k in multiset(keys);
      }
    }
    TotalPermutation(sm, found, keys);
    PrefixKeysSpec(sm.Keys, s);
    StrictlySortedUnique(keys, PrefixKeys(sm.Keys, s));
  }

  /** The messages a lookup returns, with Go's nil slice read as empty. */
  function Elements(r: Option<seq<Message>>): seq<Message> {
    if r.Some? then r.value else []
  }

  /** StructuredMessages.getMessages: nil when no message is under a
      matching key, otherwise the lists of the matching keys concatenated
      shortest key first. */
  method GetMessages(sm: StructuredMessages, path: string) returns (r: Option<seq<Message>>)
    ensures r.None? <==> Total(sm, PrefixKeys(sm.Keys, path)) == 0
    ensures Elements(r) == Concat(sm, PrefixKeys(sm.Keys, path))
    ensures |Elements(r)| == Total(sm, PrefixKeys(sm.Keys, path))
  {
    var keys, sum := FindKeys(sm, path);
    ConcatLength(sm, keys);
    if sum == 0 {
      return None;
    }
    var msgs: seq<Message> := [];
    var i := 0;
    while i < |keys|
      invariant 0 <= i <= |keys|
      invariant msgs == Concat(sm, keys[..i])
    {
      assert keys[..i + 1][..i] == keys[..i];
      msgs := msgs + sm[keys[i]];
      i := i + 1;
    }
    assert keys[..i] == keys;
    return Some(msgs);
  }

  /** The lookup of a longer path extends that of any of its prefixes: the
      messages of the shorter path come first, in the same order. */
  lemma MessagesExtend(sm: StructuredMessages, p: string, q: string)
    requires HasPrefix(q, p)
    ensures HasPrefixSeq(Concat(sm, PrefixKeys(sm.Keys, q)), Concat(sm, PrefixKeys(sm.Keys, p)))
  {
    PrefixKeysSpec(sm.Keys, p);
    PrefixKeysSpec(sm.Keys, q);
    PrefixesAgree(sm.Keys, p, q, |p|);
    var tail := PrefixesExtend(sm.Keys, q, |p|, |q|);
    ConcatAppend(sm, PrefixKeys(sm.Keys, p), tail);
  }

  predicate HasPrefixSeq(s: seq<Message>, prefix: seq<Message>) {
    |prefix| <= |s| && s[..|prefix|] == prefix
  }

  /** Paths that agree on their first `n` characters have the same short
      prefix keys. */
  lemma {:induction false} PrefixesAgree(keys: set<string>, p: string, q: string, n: nat)
    requires n <= |p| && HasPrefix(q, p)
    ensures PrefixesUpTo(keys, p, n) == PrefixesUpTo(keys, q, n)
  {
    assert p[..n] == q[..n];
    if n > 0 {
      PrefixesAgree(keys, p, q, n - 1);
    }
  }

  /** Allowing longer prefixes only appends keys. */
  lemma {:induction false} PrefixesExtend(keys: set<string>, s: string, n: nat, m: nat) returns (tail: seq<string>)
    requires n <= m <= |s|
    ensures PrefixesUpTo(keys, s, m) == PrefixesUpTo(keys, s, n) + tail
    decreases m
  {
    if m == n {
      tail := [];
    } else {
      var t := PrefixesExtend(keys, s, n, m - 1);
      tail := t + (if s[..m] in keys then [s[..m]] else []);
    }
  }

  /** Messages stored under the empty key come first for every path. */
  lemma GlobalMessagesFirst(sm: StructuredMessages, path: string)
    requires "" in sm
    ensures HasPrefixSeq(Concat(sm, PrefixKeys(sm.Keys, path)), sm[""])
  {
    MessagesExtend(sm, "", path);
    assert PrefixKeys(sm.Keys, "") == [""];
    assert Concat(sm, [""]) == sm[""] by {
      assert [""][..0] == [];
    }
  }

  // =====================================================================
  // The process-wide store

  /** The defaultStructuredMessages variable and the functions that read
      and write it. */
  class MessageStore {
    var structured: StructuredMessages

    constructor ()
      ensures structured == map[]
    {
      structured := map[];
    }

    /** readMessageFile. Opening and decoding the file are not modelled:
        `decoded` is their outcome. The list is stored under the empty key
        only when every message in it compiles. */
    method ReadMessageFile(eng: Engine, decoded: Result<seq<Message>>) returns (err: Option<Error>)
      modifies this, (if decoded.Ok? then decoded.value else [])
      ensures decoded.Err? ==> err == Some(decoded.error) && structured == old(structured)
      ensures decoded.Ok? ==> err == FirstInvalid(eng, Sources(decoded.value))
      ensures decoded.Ok? && err.Some? ==> structured == old(structured)
      ensures decoded.Ok? && err.None? ==>
        structured == old(structured)["" := decoded.value] && AllPrepared(eng, decoded.value)
    {
      if decoded.Err? {
        return Some(decoded.error);
      }
      err := PrepareMessages(eng, decoded.value);
      if err.Some? {
        return;
      }
      structured := structured["" := decoded.value];
    }

    /** getMessages on the store. */
    method GetMessagesFor(path: string) returns (r: Option<seq<Message>>)
      ensures Elements(r) == Concat(structured, PrefixKeys(structured.Keys, path))
      ensures r.None? <==> Total(structured, PrefixKeys(structured.Keys, path)) == 0
    {
      r := GetMessages(structured, path);
    }
  }
}
