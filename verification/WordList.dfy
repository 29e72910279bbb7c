/**
The word list of BIP 39 and the text around it: strcmp order, the binary search of
src/bip39.c, words joined by single spaces, and the tokens of a phrase.
*/
module WordList {
  import opened Wrappers

  const WORDS := 2048

  /** strcmp: negative, zero or positive. */
  function Cmp(a: string, b: string): (c: int)
    ensures -1 <= c <= 1
    decreases |a|
  {
    if a == "" then (if b == "" then 0 else -1)
    else if b == "" then 1
    else if a[0] < b[0] then -1
    else if a[0] > b[0] then 1
    else Cmp(a[1..], b[1..])
  }

  lemma {:induction false} CmpEqual(a: string, b: string)
    ensures Cmp(a, b) == 0 <==> a == b
    ensures Cmp(b, a) == -Cmp(a, b)
    decreases |a|
  {
    if a != "" && b != "" {
      assert a == [a[0]] + a[1..] && b == [b[0]] + b[1..];
      CmpEqual(a[1..], b[1..]);
    }
  }

  lemma {:induction false} CmpTrans(a: string, b: string, c: string)
    requires Cmp(a, b) < 0 && Cmp(b, c) < 0
    ensures Cmp(a, c) < 0
    decreases |a|
  {
    if a != "" && b != "" && c != "" && a[0] == b[0] == c[0] {
      CmpTrans(a[1..], b[1..], c[1..]);
    }
  }

  predicate Sorted(ws: seq<string>) {
    forall i, j | 0 <= i < j < |ws| :: Cmp(ws[i], ws[j]) < 0
  }

  predicate IsSpace(c: char) {
    c == ' ' || c == '\t' || c == '\n'
  }

  predicate Clean(w: string) {
    w != "" && forall i | 0 <= i < |w| :: !IsSpace(w[i])
  }

  /** Any sorted list of 2048 distinct words without white space. */
  predicate Valid(ws: seq<string>) {
    |ws| == WORDS && Sorted(ws) && forall i | 0 <= i < |ws| :: Clean(ws[i])
  }

  function Index(ws: seq<string>, w: string): (r: Option<nat>)
    ensures r.Some? ==> r.value < |ws| && ws[r.value] == w
    ensures r.None? ==> w !in ws
  {
    if ws == [] then None
    else if ws[0] == w then Some(0)
    else match Index(ws[1..], w)
      case None => None
      case Some(i) => Some(i + 1)
  }

  lemma IndexIs(ws: seq<string>, i: nat)
    requires Sorted(ws) && i < |ws|
    ensures Index(ws, ws[i]) == Some(i)
  {
    hide Cmp;
    var j := Index(ws, ws[i]).value;
    CmpEqual(ws[i], ws[j]);
  }

  /** word_index: the binary search finds a word exactly when it is listed. */
  method Search(ws: seq<string>, w: string) returns (r: int)
    requires |ws| == WORDS && Sorted(ws)
    ensures r == -1 || 0 <= r < |ws|
    ensures Index(ws, w) == if r < 0 then None else Some(r)
  {
    hide Cmp, Index;
    var lo, hi := 0, WORDS - 1;
    while lo <= hi
      invariant 0 <= lo <= hi + 1 <= |ws|
      invariant forall i | 0 <= i < lo :: Cmp(ws[i], w) < 0
      invariant forall i | hi < i < |ws| :: Cmp(w, ws[i]) < 0
    {
      var mid := (lo + hi) / 2;
      var cmp := Cmp(w, ws[mid]);
      CmpEqual(w, ws[mid]);
      if cmp == 0 {
        IndexIs(ws, mid);
        return mid;
      }
      if cmp < 0 {
        forall i | mid <= i < |ws| ensures Cmp(w, ws[i]) < 0 {
          if i > mid { CmpTrans(w, ws[mid], ws[i]); }
        }
        hi := mid - 1;
      } else {
        forall i | 0 <= i <= mid ensures Cmp(ws[i], w) < 0 {
          if i < mid { CmpTrans(ws[i], ws[mid], w); }
        }
        lo := mid + 1;
      }
    }
    forall i | 0 <= i < |ws| ensures ws[i] != w {
      CmpEqual(ws[i], w);
      CmpEqual(w, ws[i]);
    }
    r := -1;
  }

  // ----- phrases -----

  function Join(ws: seq<string>): (s: string) {
    if ws == [] then ""
    else if |ws| == 1 then ws[0]
    else Join(ws[..|ws| - 1]) + " " + ws[|ws| - 1]
  }

  /** One space between words, none around them. */
  lemma JoinTwo(a: string, b: string)
    ensures Join([a, b]) == a + " " + b
  {
    assert [a, b][..1] == [a];
  }

  lemma JoinNil()
    ensures Join([]) == ""
  {
  }

  lemma {:induction false} JoinCons(w: string, ws: seq<string>)
    requires ws != []
    ensures Join([w] + ws) == w + " " + Join(ws)
    decreases |ws|
  {
    var n := |ws| - 1;
    assert ([w] + ws)[..n + 1] == [w] + ws[..n];
    if n > 0 {
      JoinCons(w, ws[..n]);
    } else {
      assert [w] + ws[..0] == [w];
      assert Join(ws) == ws[0];
    }
  }

  function Leading(s: string): (n: nat)
    ensures n <= |s| && (forall i | 0 <= i < n :: IsSpace(s[i])) && (n < |s| ==> !IsSpace(s[n]))
  {
    if s != "" && IsSpace(s[0]) then 1 + Leading(s[1..]) else 0
  }

  function WordLength(s: string): (n: nat)
    ensures n <= |s| && (forall i | 0 <= i < n :: !IsSpace(s[i])) && (n < |s| ==> IsSpace(s[n]))
  {
    if s != "" && !IsSpace(s[0]) then 1 + WordLength(s[1..]) else 0
  }

  /** The tokens strtok_r yields, one by one, with the delimiters space, tab and newline. */
  function Tokens(s: string): (ts: seq<string>)
    ensures forall i | 0 <= i < |ts| :: Clean(ts[i])
    decreases |s|
  {
    var t := s[Leading(s)..];
    if t == "" then [] else
      var n := WordLength(t);
      [t[..n]] + Tokens(t[n..])
  }

  lemma TokenFirst(w: string, rest: string)
    requires Clean(w) && (rest != "" ==> IsSpace(rest[0]))
    ensures Tokens(w + rest) == [w] + Tokens(rest)
  {
    hide Leading, WordLength;
    var s := w + rest;
    assert s[0] == w[0] && Leading(s) == 0;
    var t := s[Leading(s)..];
    assert t == s;
    var n := WordLength(s);
    assert n >= |w| by { assert forall i | 0 <= i < |w| :: s[i] == w[i]; }
    assert n <= |w| by { assert rest != "" ==> s[|w|] == rest[0]; }
    assert s[..n] == w && s[n..] == rest;
  }

  lemma TokensSpace(s: string)
    ensures Tokens(" " + s) == Tokens(s)
  {
    assert (" " + s)[1..] == s;
    assert (" " + s)[Leading(" " + s)..] == s[Leading(s)..];
  }

  /** Splitting undoes joining. */
  lemma {:induction false} TokensJoin(ws: seq<string>)
    requires forall i | 0 <= i < |ws| :: Clean(ws[i])
    ensures Tokens(Join(ws)) == ws
    decreases |ws|
  {
    hide Tokens;
    if ws == [] {
      TokensEmpty();
    } else if |ws| == 1 {
      TokenFirst(ws[0], "");
      TokensEmpty();
      assert ws[0] + "" == ws[0];
    } else {
      var t := ws[1..];
      assert ws == [ws[0]] + t;
      JoinCons(ws[0], t);
      assert ws[0] + " " + Join(t) == ws[0] + (" " + Join(t));
      TokenFirst(ws[0], " " + Join(t));
      TokensSpace(Join(t));
      TokensJoin(t);
    }
  }

  lemma TokensEmpty()
    ensures Tokens("") == []
  {
  }
}
