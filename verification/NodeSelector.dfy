/** K8S_NODE_SELECTOR: parseNodeSelector, with the parts of Go's strings package it uses. */
module NodeSelector {
  import opened Wrappers
  import opened Text

  /** unicode.IsSpace */
  predicate IsSpace(c: char) {
    || c == ' ' || '\t' <= c <= '\r' || c == '\U{85}' || c == '\U{A0}' || c == '\U{1680}'
    || '\U{2000}' <= c <= '\U{200A}' || c == '\U{2028}' || c == '\U{2029}' || c == '\U{202F}'
    || c == '\U{205F}' || c == '\U{3000}'
  }

  /** In ASCII: the tab, line feed, vertical tab, form feed, carriage return and the space. */
  lemma AsciiSpaces(c: char)
    ensures c as int < 0x80 ==> (IsSpace(c) <==> c in {'\t', '\n', '\U{0B}', '\U{0C}', '\r', ' '})
  {
  }

  function TrimLeft(s: string): string {
    if s != "" && IsSpace(s[0]) then TrimLeft(s[1..]) else s
  }

  function TrimRight(s: string): string {
    if s != "" && IsSpace(s[|s| - 1]) then TrimRight(s[..|s| - 1]) else s
  }

  /** strings.TrimSpace */
  function Trim(s: string): string {
    TrimRight(TrimLeft(s))
  }

  predicate Blank(s: string) {
    forall c | c in s :: IsSpace(c)
  }

  /** One entry of the list: a key and value, or nothing if it has no "=" or no key. */
  function ParsePair(pair: string): Option<(string, string)> {
    if '=' !in pair then None
    else
      var i := IndexOf(pair, '=');
      var key := Trim(pair[..i]);
      if key == "" then None else Some((key, Trim(pair[i + 1..])))
  }

  /** The entries in order, later keys replacing earlier ones. */
  function ReadPairs(pairs: seq<string>): map<string, string> {
    if pairs == [] then map[]
    else
      var m := ReadPairs(pairs[..|pairs| - 1]);
      match ParsePair(pairs[|pairs| - 1])
      case None => m
      case Some((k, v)) => m[k := v]
  }

  method ParseNodeSelector(raw: string) returns (selector: Option<map<string, string>>)
    ensures selector == if ReadPairs(Split(raw, ',')) == map[] then None else Some(ReadPairs(Split(raw, ',')))
  {
    TrimIsRedundant(raw);
    var trimmed := Trim(raw);
    if trimmed == "" {
      EmptyList();
      return None;
    }
    var m := ParseList(Split(trimmed, ','));
    if |m| == 0 { return None; }
    selector := Some(m);
  }

  lemma EmptyList()
    ensures ReadPairs(Split("", ',')) == map[]
  {
    assert Split("", ',') == [""] && [""][..0] == [];
  }

  /** The loop over the list's entries. */
  method ParseList(pairs: seq<string>) returns (m: map<string, string>)
    ensures m == ReadPairs(pairs)
  {
    m := map[];
    var i := 0;
    while i < |pairs|
      invariant 0 <= i <= |pairs|
      invariant m == ReadPairs(pairs[..i])
    {
      assert pairs[..i + 1][..i] == pairs[..i];
      var p := ParsePair(pairs[i]);
      if p.Some? { m := m[p.value.0 := p.value.1]; }
      i := i + 1;
    }
    assert pairs[..i] == pairs;
  }

  // ----- trimming -----

  lemma {:induction false} TrimLeftBlank(a: string, s: string)
    requires Blank(a)
    ensures TrimLeft(a + s) == TrimLeft(s)
  {
    if a == "" {
      assert a + s == s;
    } else {
      assert (a + s)[1..] == a[1..] + s && (a + s)[0] == a[0];
      TrimLeftBlank(a[1..], s);
    }
  }

  lemma {:induction false} TrimRightBlank(s: string, b: string)
    requires Blank(b)
    ensures TrimRight(s + b) == TrimRight(s)
  {
    if b == "" {
      assert s + b == s;
    } else {
      assert (s + b)[..|s + b| - 1] == s + b[..|b| - 1] && (s + b)[|s + b| - 1] == b[|b| - 1];
      TrimRightBlank(s, b[..|b| - 1]);
    }
  }

  lemma {:induction false} TrimLeftThrough(s: string, t: string)
    requires TrimLeft(s) != ""
    ensures TrimLeft(s + t) == TrimLeft(s) + t
  {
    if s != "" && IsSpace(s[0]) {
      assert (s + t)[1..] == s[1..] + t;
      TrimLeftThrough(s[1..], t);
    }
  }

  lemma {:induction false} TrimLeftRest(s: string) returns (a: string)
    ensures s == a + TrimLeft(s) && Blank(a)
    ensures TrimLeft(s) != "" ==> !IsSpace(TrimLeft(s)[0])
  {
    a := "";
    if s != "" && IsSpace(s[0]) {
      var rest := TrimLeftRest(s[1..]);
      a := [s[0]] + rest;
      assert s == [s[0]] + s[1..];
    }
  }

  lemma {:induction false} TrimRightRest(s: string) returns (b: string)
    ensures s == TrimRight(s) + b && Blank(b)
  {
    b := "";
    if s != "" && IsSpace(s[|s| - 1]) {
      var rest := TrimRightRest(s[..|s| - 1]);
      b := rest + [s[|s| - 1]];
      assert s == s[..|s| - 1] + [s[|s| - 1]];
    }
  }

  /** A text is its trimmed core between two blanks. */
  lemma TrimSplits(s: string) returns (a: string, b: string)
    ensures s == a + Trim(s) + b && Blank(a) && Blank(b)
  {
    a := TrimLeftRest(s);
    b := TrimRightRest(TrimLeft(s));
    Reassociate(a, Trim(s), b);
  }

  lemma TrimEmpty(s: string)
    ensures Trim(s) == "" <==> Blank(s)
  {
    var a := TrimLeftRest(s);
    var l := TrimLeft(s);
    var b := TrimRightRest(l);
    assert b != "" ==> b[0] in b;
    assert l != "" ==> l[0] in s by { assert s == a + l; }
    assert Trim(s) == "" ==> l == b;
  }

  /** Blanks around a text do not survive trimming. */
  lemma TrimBefore(a: string, s: string)
    requires Blank(a)
    ensures Trim(a + s) == Trim(s)
  {
    TrimLeftBlank(a, s);
  }

  lemma TrimAfter(s: string, b: string)
    requires Blank(b)
    ensures Trim(s + b) == Trim(s)
  {
    if TrimLeft(s) == "" {
      TrimEmpty(s);
      assert Blank(s + b);
      TrimEmpty(s + b);
    } else {
      TrimLeftThrough(s, b);
      TrimRightBlank(TrimLeft(s), b);
    }
  }

  // ----- trimming the whole list changes nothing -----

  lemma NoSeparator(a: string)
    requires Blank(a)
    ensures ',' !in a && '=' !in a
  {
  }

  /** An entry is read off its two sides. */
  lemma PairAt(left: string, right: string)
    requires '=' !in left
    ensures ParsePair(left + ['='] + right) == if Trim(left) == "" then None else Some((Trim(left), Trim(right)))
  {
    var p := left + ['='] + right;
    assert p[|left|] == '=' && p[..|left|] == left && p[|left| + 1..] == right;
    IndexOfUnique(p, '=', |left|);
  }

  lemma ParsePairLeft(a: string, p: string)
    requires Blank(a)
    ensures ParsePair(a + p) == ParsePair(p)
  {
    NoSeparator(a);
    if '=' in p {
      var l, r := Cut(p, '=');
      Prepend(a, l, '=', r);
      PairAt(l, r);
      PairAt(a + l, r);
      TrimBefore(a, l);
    }
  }

  lemma ParsePairRight(p: string, b: string)
    requires Blank(b)
    ensures ParsePair(p + b) == ParsePair(p)
  {
    NoSeparator(b);
    if '=' in p {
      var l, r := Cut(p, '=');
      Reassociate(l + ['='], r, b);
      PairAt(l, r);
      PairAt(l, r + b);
      TrimAfter(r, b);
    }
  }

  lemma SplitLeft(a: string, s: string)
    requires Blank(a)
    ensures Split(a + s, ',') == [a + Split(s, ',')[0]] + Split(s, ',')[1..]
  {
    NoSeparator(a);
    if ',' in s {
      var head, tail := Cut(s, ',');
      assert a + s == (a + head) + [','] + tail;
      SplitHead(a + head, tail, ',');
    }
  }

  lemma LastOfCons(head: string, rest: seq<string>, b: string)
    requires rest != []
    ensures var ps, m, n := [head] + rest, |rest|, |rest| - 1;
      [head] + (rest[..n] + [rest[n] + b]) == ps[..m] + [ps[m] + b]
  {
  }

  lemma {:induction false} SplitRight(s: string, b: string)
    requires Blank(b)
    ensures var ps, n := Split(s, ','), |Split(s, ',')| - 1;
      Split(s + b, ',') == ps[..n] + [ps[n] + b]
    decreases |s|
  {
    NoSeparator(b);
    if ',' in s {
      var head, tail := Cut(s, ',');
      Reassociate(head + [','], tail, b);
      SplitHead(head, tail + b, ',');
      SplitRight(tail, b);
      LastOfCons(head, Split(tail, ','), b);
    }
  }

  lemma {:induction false} PairsSame(ps: seq<string>, qs: seq<string>)
    requires |ps| == |qs| && forall i | 0 <= i < |ps| :: ParsePair(ps[i]) == ParsePair(qs[i])
    ensures ReadPairs(ps) == ReadPairs(qs)
  {
    if ps != [] { PairsSame(ps[..|ps| - 1], qs[..|qs| - 1]); }
  }

  lemma LeftBlankRedundant(a: string, s: string)
    requires Blank(a)
    ensures ReadPairs(Split(a + s, ',')) == ReadPairs(Split(s, ','))
  {
    SplitLeft(a, s);
    ParsePairLeft(a, Split(s, ',')[0]);
    PairsSame(Split(a + s, ','), Split(s, ','));
  }

  lemma RightBlankRedundant(s: string, b: string)
    requires Blank(b)
    ensures ReadPairs(Split(s + b, ',')) == ReadPairs(Split(s, ','))
  {
    SplitRight(s, b);
    LastBlankRedundant(Split(s, ','), b);
  }

  lemma LastBlankRedundant(ps: seq<string>, b: string)
    requires ps != [] && Blank(b)
    ensures ReadPairs(ps[..|ps| - 1] + [ps[|ps| - 1] + b]) == ReadPairs(ps)
  {
    var n := |ps| - 1;
    var last := ps[n] + b;
    ParsePairRight(ps[n], b);
    SamePairs(ps, last);
  }

  lemma SamePairs(ps: seq<string>, last: string)
    requires ps != [] && ParsePair(last) == ParsePair(ps[|ps| - 1])
    ensures ReadPairs(ps[..|ps| - 1] + [last]) == ReadPairs(ps)
  {
    var qs := ps[..|ps| - 1] + [last];
    assert qs[..|ps| - 1] == ps[..|ps| - 1];
  }

  lemma TrimIsRedundant(raw: string)
    ensures ReadPairs(Split(Trim(raw), ',')) == ReadPairs(Split(raw, ','))
  {
    var a, b := TrimSplits(raw);
    LeftBlankRedundant(a, Trim(raw));
    RightBlankRedundant(a + Trim(raw), b);
  }

  // ----- printing -----

  /** A printed list item: a pair with blanks around its parts, or text that names no pair. */
  datatype Item = Pair(key: string, value: string, a: string, b: string, c: string, d: string) | Junk(text: string)

  predicate Printable(it: Item) {
    match it
    case Pair(k, v, a, b, c, d) =>
      && k != "" && Trim(k) == k && ',' !in k && '=' !in k
      && Trim(v) == v && ',' !in v
      && Blank(a) && Blank(b) && Blank(c) && Blank(d)
    case Junk(t) => ',' !in t && ('=' in t ==> Blank(t[..IndexOf(t, '=')]))
  }

  function Print(it: Item): string {
    match it
    case Pair(k, v, a, b, c, d) => (a + k + b) + ['='] + (c + v + d)
    case Junk(t) => t
  }

  function Printed(items: seq<Item>): seq<string> {
    seq(|items|, i requires 0 <= i < |items| => Print(items[i]))
  }

  /** What the items say, later pairs replacing earlier ones. */
  function Meaning(items: seq<Item>): map<string, string> {
    if items == [] then map[]
    else
      var m := Meaning(items[..|items| - 1]);
      match items[|items| - 1]
      case Pair(k, v, _, _, _, _) => m[k := v]
      case Junk(_) => m
  }

  lemma PairRead(k: string, v: string, a: string, b: string, c: string, d: string)
    requires Printable(Pair(k, v, a, b, c, d))
    ensures ParsePair((a + k + b) + ['='] + (c + v + d)) == Some((k, v))
  {
    NoSeparator(a);
    NoSeparator(b);
    PairAt(a + k + b, c + v + d);
    TrimAfter(a + k, b);
    TrimBefore(a, k);
    TrimAfter(c + v, d);
    TrimBefore(c, v);
  }

  lemma NoComma(a: string, s: string, b: string)
    requires Blank(a) && Blank(b) && ',' !in s
    ensures ',' !in a + s + b
  {
    NoSeparator(a);
    NoSeparator(b);
  }

  lemma PrintedPair(it: Item)
    requires Printable(it)
    ensures ',' !in Print(it)
    ensures ParsePair(Print(it)) == if it.Pair? then Some((it.key, it.value)) else None
  {
    match it
    case Pair(k, v, a, b, c, d) =>
      NoComma(a, k, b);
      NoComma(c, v, d);
      PairRead(k, v, a, b, c, d);
    case Junk(t) =>
      if '=' in t { TrimEmpty(t[..IndexOf(t, '=')]); }
  }

  lemma {:induction false} PairsPrinted(items: seq<Item>)
    requires forall it | it in items :: Printable(it)
    ensures ReadPairs(Printed(items)) == Meaning(items)
  {
    if items != [] {
      var init := items[..|items| - 1];
      PairsPrinted(init);
      PrintedPair(items[|items| - 1]);
      assert Printed(items)[..|items| - 1] == Printed(init);
    }
  }

  /** Reading back any printed, comma-joined list gives what its items say. */
  lemma ParsePrinted(items: seq<Item>)
    requires items != [] && forall it | it in items :: Printable(it)
    ensures ReadPairs(Split(Join(Printed(items), ','), ',')) == Meaning(items)
  {
    forall p | p in Printed(items) ensures ',' !in p {
      var i :| 0 <= i < |items| && p == Print(items[i]);
      PrintedPair(items[i]);
    }
    SplitJoin(Printed(items), ',');
    PairsPrinted(items);
  }

  /** The items print exactly the pairs of m, in any order and any number of times. */
  predicate PrintsPairs(items: seq<Item>, m: map<string, string>) {
    && (forall it | it in items && it.Pair? :: it.key in m && m[it.key] == it.value)
    && forall k | k in m :: exists i | 0 <= i < |items| :: items[i].Pair? && items[i].key == k
  }

  lemma {:induction false} MeaningWithin(items: seq<Item>, m: map<string, string>)
    requires forall it | it in items && it.Pair? :: it.key in m && m[it.key] == it.value
    ensures forall k | k in Meaning(items) :: k in m && m[k] == Meaning(items)[k]
    ensures forall i | 0 <= i < |items| && items[i].Pair? :: items[i].key in Meaning(items)
  {
    if items != [] {
      MeaningWithin(items[..|items| - 1], m);
      assert items[|items| - 1] in items;
    }
  }

  /** Printing a selector map in any order, with any blanks and malformed entries in between, parses back to it. */
  lemma PrintParse(items: seq<Item>, m: map<string, string>)
    requires items != [] && PrintsPairs(items, m) && forall it | it in items :: Printable(it)
    ensures ReadPairs(Split(Join(Printed(items), ','), ',')) == m
  {
    ParsePrinted(items);
    MeaningWithin(items, m);
  }
}
