/**
 Domain names as sequences of labels, with the ASCII case folding that the
 caches, the update engine and the zone-file parser apply to owner names.
 */
module Names {

  type Label = string

  type Name = seq<Label>

  datatype Option<+T> = None | Some(value: T)

  function LowerChar(c: char): char {
    if 'A' <= c <= 'Z' then 'a' + (c - 'A') else c
  }

  function LowerLabel(l: Label): (r: Label)
    ensures |r| == |l|
  {
    seq(|l|, i requires 0 <= i < |l| => LowerChar(l[i]))
  }

  function Lower(n: Name): (r: Name)
    ensures |r| == |n|
    ensures forall i :: 0 <= i < |n| ==> r[i] == LowerLabel(n[i])
  {
    seq(|n|, i requires 0 <= i < |n| => LowerLabel(n[i]))
  }

  /** Case folding is idempotent, so a folded name is its own cache or map key. */
  lemma LowerIdempotent(n: Name)
    ensures Lower(Lower(n)) == Lower(n)
  {
    forall i | 0 <= i < |n|
      ensures LowerLabel(LowerLabel(n[i])) == LowerLabel(n[i])
    {
      var l := n[i];
      forall j | 0 <= j < |l|
        ensures LowerLabel(LowerLabel(l))[j] == LowerLabel(l)[j]
      {
      }
    }
  }

  /** The text of a name, without a trailing dot. */
  function Join(n: Name): string {
    if n == [] then ""
    else if |n| == 1 then n[0]
    else n[0] + "." + Join(n[1..])
  }

  predicate IsSuffix(suffix: Name, n: Name) {
    |suffix| <= |n| && n[|n| - |suffix|..] == suffix
  }

  function StripSuffix(n: Name, suffix: Name): Name {
    if IsSuffix(suffix, n) then n[..|n| - |suffix|] else n
  }

  // ---------- Text and names ----------

  function DecimalText(n: nat): string {
    if n < 10 then [('0' as int + n) as char] else DecimalText(n / 10) + [('0' as int + n % 10) as char]
  }

  /** The labels of a text, which is taken apart at its dots. */
  function Split(s: string): (n: Name)
    ensures n != []
  {
    if s == "" then [""]
    else if s[0] == '.' then [""] + Split(s[1..])
    else
      var rest := Split(s[1..]);
      [[s[0]] + rest[0]] + rest[1..]
  }

  predicate Dotless(n: Name) {
    forall i :: 0 <= i < |n| ==> '.' !in n[i]
  }

  lemma {:induction false} SplitDotless(s: string)
    ensures Dotless(Split(s))
  {
    if s != "" {
      SplitDotless(s[1..]);
    }
  }

  lemma JoinCons(l: Label, n: Name)
    requires n != []
    ensures Join([l] + n) == l + "." + Join(n)
  {
    assert ([l] + n)[1..] == n;
  }

  /** Longer first labels carry over to the text. */
  lemma JoinFirst(c: char, n: Name)
    requires n != []
    ensures Join([[c] + n[0]] + n[1..]) == [c] + Join(n)
  {
    var m := [[c] + n[0]] + n[1..];
    if |n| > 1 {
      assert m[1..] == n[1..];
      assert [c] + n[0] + "." + Join(n[1..]) == [c] + (n[0] + "." + Join(n[1..]));
    }
  }

  /** A text is the text of its labels, so two texts never stand for one name. */
  lemma {:induction false} JoinSplit(s: string)
    ensures Join(Split(s)) == s
  {
    if s != "" {
      var rest := Split(s[1..]);
      JoinSplit(s[1..]);
      if s[0] == '.' {
        JoinCons("", rest);
      } else {
        JoinFirst(s[0], rest);
      }
      assert s == [s[0]] + s[1..];
    }
  }

  lemma {:induction false} SplitLabel(l: Label, rest: string)
    requires '.' !in l
    ensures Split(l + "." + rest) == [l] + Split(rest)
  {
    var s := l + "." + rest;
    if l == "" {
      assert s[1..] == rest;
    } else {
      SplitLabel(l[1..], rest);
      assert s[1..] == l[1..] + "." + rest;
      assert [l[0]] + l[1..] == l;
    }
  }

  lemma {:induction false} SplitOne(l: Label)
    requires '.' !in l
    ensures Split(l) == [l]
  {
    if l != "" {
      SplitOne(l[1..]);
      assert [l[0]] + l[1..] == l;
    }
  }

  /** A name whose labels hold no dots comes back from its text. */
  lemma {:induction false} SplitJoin(n: Name)
    requires n != [] && Dotless(n)
    ensures Split(Join(n)) == n
  {
    if |n| == 1 {
      SplitOne(n[0]);
      assert n == [n[0]];
    } else {
      SplitJoin(n[1..]);
      SplitLabel(n[0], Join(n[1..]));
      assert n == [n[0]] + n[1..];
    }
  }
}
