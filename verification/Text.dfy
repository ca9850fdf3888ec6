/** The parts of Go's strings package that the program relies on. */
module Text {

  predicate HasPrefix(s: string, prefix: string) {
    |prefix| <= |s| && s[..|prefix|] == prefix
  }

  predicate HasSuffix(s: string, suffix: string) {
    |suffix| <= |s| && s[|s| - |suffix|..] == suffix
  }

  /** strings.IndexByte for a character that does occur. */
  function IndexOf(s: string, c: char): (i: nat)
    requires c in s
    ensures i < |s| && s[i] == c && c !in s[..i]
  {
    if s[0] == c then 0 else 1 + IndexOf(s[1..], c)
  }

  /** strings.Split for a one-character separator. */
  function Split(s: string, c: char): (parts: seq<string>)
    ensures |parts| > 0
    ensures forall p | p in parts :: c !in p
    decreases |s|
  {
    if c !in s then [s]
    else var i := IndexOf(s, c); [s[..i]] + Split(s[i + 1..], c)
  }

  /** strings.Join for a one-character separator. */
  function Join(parts: seq<string>, c: char): string {
    if parts == [] then ""
    else if |parts| == 1 then parts[0]
    else parts[0] + [c] + Join(parts[1..], c)
  }

  /** strings.ReplaceAll from one character to another. */
  function ReplaceAll(s: string, from: char, to: char): (r: string)
    ensures |r| == |s|
    ensures forall i | 0 <= i < |s| :: r[i] == if s[i] == from then to else s[i]
  {
    seq(|s|, i requires 0 <= i < |s| => if s[i] == from then to else s[i])
  }

  lemma IndexOfUnique(s: string, c: char, i: nat)
    requires i < |s| && s[i] == c && c !in s[..i]
    ensures IndexOf(s, c) == i
  {
    var j := IndexOf(s, c);
    assert forall k | 0 <= k < i :: s[..i][k] == s[k] != c;
    assert forall k | 0 <= k < j :: s[..j][k] == s[k] != c;
  }

  lemma SplitHead(x: string, y: string, c: char)
    requires c !in x
    ensures Split(x + [c] + y, c) == [x] + Split(y, c)
  {
    var s := x + [c] + y;
    assert s[|x|] == c && s[..|x|] == x && s[|x| + 1..] == y;
    IndexOfUnique(s, c, |x|);
  }

  lemma Cut(s: string, c: char) returns (head: string, tail: string)
    requires c in s
    ensures s == head + [c] + tail && c !in head && |tail| < |s|
    ensures Split(s, c) == [head] + Split(tail, c)
  {
    var i := IndexOf(s, c);
    head, tail := s[..i], s[i + 1..];
    assert s == head + [c] + tail;
  }

  lemma Reassociate<T>(a: seq<T>, b: seq<T>, c: seq<T>)
    ensures a + (b + c) == (a + b) + c
  {
  }

  lemma DropOne<T>(s: seq<T>, i: nat)
    requires i < |s|
    ensures s[i..] != [] && s[i..][0] == s[i] && s[i..][1..] == s[i + 1..]
  {
  }

  lemma Prepend(a: string, l: string, c: char, r: string)
    ensures a + (l + [c] + r) == (a + l) + [c] + r
  {
  }

  lemma Regroup(a: string, b: string, y: string, c: char)
    ensures (a + [c] + b) + [c] + y == a + [c] + (b + [c] + y)
  {
  }

  /** Splitting a text at one of its separators splits the two halves. */
  lemma {:induction false} SplitAppend(x: string, y: string, c: char)
    ensures Split(x + [c] + y, c) == Split(x, c) + Split(y, c)
    decreases |x|
  {
    if c !in x {
      SplitHead(x, y, c);
    } else {
      var head, tail := Cut(x, c);
      var xs, ys := Split(tail, c), Split(y, c);
      SplitAppend(tail, y, c);
      calc {
        Split(x + [c] + y, c);
        { Regroup(head, tail, y, c); }
        Split(head + [c] + (tail + [c] + y), c);
        { SplitHead(head, tail + [c] + y, c); }
        [head] + (xs + ys);
        { Reassociate([head], xs, ys); }
        Split(x, c) + ys;
      }
    }
  }

  lemma JoinCons(head: string, rest: seq<string>, c: char)
    requires rest != []
    ensures Join([head] + rest, c) == head + [c] + Join(rest, c)
  {
    var parts := [head] + rest;
    assert parts[0] == head && parts[1..] == rest;
  }

  /** Join is a left inverse of Split ... */
  lemma {:induction false} JoinSplit(s: string, c: char)
    ensures Join(Split(s, c), c) == s
    decreases |s|
  {
    if c in s {
      var head, tail := Cut(s, c);
      JoinSplit(tail, c);
      JoinCons(head, Split(tail, c), c);
    }
  }

  /** ... and Split one of Join on separator-free parts. */
  lemma {:induction false} SplitJoin(parts: seq<string>, c: char)
    requires parts != []
    requires forall p | p in parts :: c !in p
    ensures Split(Join(parts, c), c) == parts
  {
    if |parts| > 1 {
      SplitJoin(parts[1..], c);
      SplitHead(parts[0], Join(parts[1..], c), c);
      assert parts == [parts[0]] + parts[1..];
    } else {
      assert parts == [parts[0]];
    }
  }

  lemma {:induction false} JoinAppend(a: seq<string>, b: seq<string>, c: char)
    requires a != [] && b != []
    ensures Join(a + b, c) == Join(a, c) + [c] + Join(b, c)
  {
    if |a| == 1 {
      assert (a + b)[1..] == b;
    } else {
      assert (a + b)[1..] == a[1..] + b;
      JoinAppend(a[1..], b, c);
    }
  }

  /** Joined texts extend one another exactly when the part lists do. */
  lemma JoinPrefix(a: seq<string>, b: seq<string>, c: char)
    requires a != [] && b != []
    requires forall p | p in a :: c !in p
    requires forall p | p in b :: c !in p
    ensures HasPrefix(Join(b, c), Join(a, c) + [c]) <==> |a| < |b| && b[..|a|] == a
  {
    if HasPrefix(Join(b, c), Join(a, c) + [c]) {
      PrefixRest(Join(b, c), Join(a, c) + [c]);
      PrefixParts(a, b, Join(b, c)[|Join(a, c)| + 1..], c);
    } else if |a| < |b| && b[..|a|] == a {
      LongerJoin(a, b, c);
    }
  }

  lemma LongerJoin(a: seq<string>, b: seq<string>, c: char)
    requires a != [] && |a| < |b| && b[..|a|] == a
    ensures HasPrefix(Join(b, c), Join(a, c) + [c])
  {
    assert b == a + b[|a|..];
    JoinAppend(a, b[|a|..], c);
    PrefixOfConcat(Join(a, c) + [c], Join(b[|a|..], c));
  }

  lemma PrefixRest(s: string, p: string)
    requires HasPrefix(s, p)
    ensures s == p + s[|p|..]
  {
  }

  lemma PrefixOfConcat(s: string, t: string)
    ensures HasPrefix(s + t, s)
  {
  }

  lemma PrefixParts(a: seq<string>, b: seq<string>, rest: string, c: char)
    requires a != [] && b != []
    requires forall p | p in a :: c !in p
    requires forall p | p in b :: c !in p
    requires Join(b, c) == Join(a, c) + [c] + rest
    ensures |a| < |b| && b[..|a|] == a
  {
    SplitAppend(Join(a, c), rest, c);
    SplitJoin(a, c);
    SplitJoin(b, c);
    assert b == a + Split(rest, c);
  }
}
