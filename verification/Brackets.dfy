/** What bracket matching means: words of brackets among other text, and the stack that
    recognises them. */
module Brackets {

  datatype Stack = Ok(s: seq<char>) | Clash

  predicate IsOpen(ch: char) { ch == '(' || ch == '[' || ch == '{' }

  predicate IsClose(ch: char) { ch == ')' || ch == ']' || ch == '}' }

  function Swap(ch: char): char {
    match ch
    case '(' => ')' case ')' => '(' case '[' => ']' case ']' => '[' case '{' => '}' case '}' => '{'
    case '<' => '>' case '>' => '<'
    case _ => ch
  }

  predicate Pair(open: char, close: char) {
    IsOpen(open) && close == Swap(open)
  }

  /** The grammar: other text is skipped, and a bracket encloses a balanced text. */
  ghost predicate Balanced(w: string)
    decreases |w|, 1
  {
    || w == ""
    || (!IsOpen(w[0]) && !IsClose(w[0]) && Balanced(w[1..]))
    || exists k | 0 < k < |w| :: Encloses(w, k)
  }

  ghost predicate Encloses(w: string, k: nat)
    requires 0 < k < |w|
    decreases |w|, 0
  {
    Pair(w[0], w[k]) && Balanced(w[1..k]) && Balanced(w[k + 1..])
  }

  /** The recogniser: one character against the stack of open brackets. */
  function Turn(ch: char, s: seq<char>): Stack {
    if IsOpen(ch) then Ok(s + [ch])
    else if !IsClose(ch) then Ok(s)
    else if s != [] && Pair(s[|s| - 1], ch) then Ok(s[..|s| - 1])
    else Clash
  }

  function Read(w: string, s: seq<char>): Stack {
    if w == "" then Ok(s)
    else match Turn(w[0], s)
      case Clash => Clash
      case Ok(t) => Read(w[1..], t)
  }

  lemma {:induction false} ReadAppend(a: string, b: string, s: seq<char>)
    ensures Read(a + b, s) == match Read(a, s) case Clash => Clash case Ok(t) => Read(b, t)
    decreases |a|
  {
    if a == "" {
      assert a + b == b;
    } else {
      assert (a + b)[1..] == a[1..] + b;
      if Turn(a[0], s).Ok? { ReadAppend(a[1..], b, Turn(a[0], s).s); }
    }
  }

  lemma {:induction false} BalancedIsNeutral(w: string, s: seq<char>)
    requires Balanced(w)
    ensures Read(w, s) == Ok(s)
    decreases |w|
  {
    if w == "" {
    } else if !IsOpen(w[0]) && !IsClose(w[0]) {
      BalancedIsNeutral(w[1..], s);
    } else {
      var k :| 0 < k < |w| && Encloses(w, k);
      BalancedIsNeutral(w[1..k], s + [w[0]]);
      BalancedIsNeutral(w[k + 1..], s);
      assert w[1..] == w[1..k] + ([w[k]] + w[k + 1..]);
      ReadAppend(w[1..k], [w[k]] + w[k + 1..], s + [w[0]]);
      assert ([w[k]] + w[k + 1..])[1..] == w[k + 1..];
      assert (s + [w[0]])[..|s|] == s;
    }
  }

  /** Where the bottom bracket of the stack is closed. */
  lemma {:induction false} BottomCloses(w: string, o: char, s: seq<char>) returns (k: nat)
    requires Read(w, [o] + s) == Ok([]) && IsOpen(o)
    ensures k < |w| && Pair(o, w[k]) && Read(w[..k], s) == Ok([]) && Read(w[k + 1..], []) == Ok([])
    decreases |w|
  {
    var t := [o] + s;
    assert w != "";
    if s == [] && IsClose(w[0]) {
      k := 0;
      assert t[..0] == [];
    } else {
      var s' := Turn(w[0], s).s;
      assert t[|t| - 1] == (if s == [] then o else s[|s| - 1]);
      assert Turn(w[0], t) == Ok([o] + s');
      k := BottomCloses(w[1..], o, s');
      k := k + 1;
      assert w[..k][1..] == w[1..][..k - 1];
    }
  }

  /** The stack recognises exactly the grammar. */
  lemma {:induction false} StackIsGrammar(w: string)
    ensures Balanced(w) <==> Read(w, []) == Ok([])
    decreases |w|
  {
    if w != "" && Read(w, []) == Ok([]) {
      if !IsOpen(w[0]) && !IsClose(w[0]) {
        StackIsGrammar(w[1..]);
      } else {
        assert [] + [w[0]] == [w[0]] + [];
        var k := BottomCloses(w[1..], w[0], []);
        assert w[1..][..k] == w[1..k + 1] && w[1..][k + 1..] == w[k + 2..];
        StackIsGrammar(w[1..k + 1]);
        StackIsGrammar(w[k + 2..]);
        assert Encloses(w, k + 1);
      }
    }
    if Balanced(w) { BalancedIsNeutral(w, []); }
  }

  // ---------- Read from the right ----------

  function Mirror(w: string): string {
    if w == "" then "" else Mirror(w[1..]) + [Swap(w[0])]
  }

  lemma {:induction false} MirrorAppend(a: string, b: string)
    ensures Mirror(a + b) == Mirror(b) + Mirror(a)
    decreases |a|
  {
    if a == "" {
      assert a + b == b;
    } else {
      assert (a + b)[1..] == a[1..] + b;
      MirrorAppend(a[1..], b);
    }
  }

  lemma {:induction false} MirrorTwice(w: string)
    ensures Mirror(Mirror(w)) == w && |Mirror(w)| == |w|
    decreases |w|
  {
    if w != "" {
      MirrorTwice(w[1..]);
      MirrorAppend(Mirror(w[1..]), [Swap(w[0])]);
      assert [Swap(w[0])][1..] == "";
      assert Mirror([Swap(w[0])]) == Mirror("") + [w[0]];
    }
  }

  lemma {:induction false} MirrorEnclosed(w: string, k: nat)
    requires 0 < k < |w|
    ensures Mirror(w) == Mirror(w[k + 1..]) + ([Swap(w[k])] + (Mirror(w[1..k]) + [Swap(w[0])]))
  {
    var rest := [w[k]] + w[k + 1..];
    assert w[1..] == w[1..k] + rest;
    MirrorAppend(w[1..k], rest);
    assert rest[1..] == w[k + 1..];
  }

  /** Neutral text, an opening bracket, neutral text and its closing bracket are neutral. */
  lemma {:induction false} EnclosedIsNeutral(b: string, o: char, a: string, c: char, s: seq<char>)
    requires Read(b, s) == Ok(s) && Read(a, s + [o]) == Ok(s + [o]) && Pair(o, c)
    ensures Read(b + ([o] + (a + [c])), s) == Ok(s)
  {
    ReadAppend(b, [o] + (a + [c]), s);
    assert ([o] + (a + [c]))[1..] == a + [c];
    ReadAppend(a, [c], s + [o]);
    assert [c][1..] == "";
    assert (s + [o])[..|s|] == s;
  }

  lemma {:induction false} MirrorIsNeutral(w: string, s: seq<char>)
    requires Balanced(w)
    ensures Read(Mirror(w), s) == Ok(s)
    decreases |w|
  {
    if w == "" {
    } else if !IsOpen(w[0]) && !IsClose(w[0]) {
      MirrorIsNeutral(w[1..], s);
      ReadAppend(Mirror(w[1..]), [Swap(w[0])], s);
      assert [Swap(w[0])][1..] == "";
    } else {
      var k :| 0 < k < |w| && Encloses(w, k);
      MirrorIsNeutral(w[1..k], s + [Swap(w[k])]);
      MirrorIsNeutral(w[k + 1..], s);
      MirrorEnclosed(w, k);
      EnclosedIsNeutral(Mirror(w[k + 1..]), Swap(w[k]), Mirror(w[1..k]), Swap(w[0]), s);
    }
  }

  /** A text is balanced read from either end. */
  lemma MirrorBalanced(w: string)
    ensures Balanced(Mirror(w)) <==> Balanced(w)
  {
    StackIsGrammar(Mirror(w));
    StackIsGrammar(w);
    MirrorTwice(w);
    if Balanced(w) { MirrorIsNeutral(w, []); }
    if Balanced(Mirror(w)) { MirrorIsNeutral(Mirror(w), []); }
  }

  // ---------- The first balanced prefix ----------

  /** Balanced, and no shorter non-empty beginning is. */
  ghost predicate FirstBalanced(w: string) {
    w != "" && Balanced(w) && forall k | 0 < k < |w| :: !Balanced(w[..k])
  }

  ghost predicate LastBalanced(w: string) {
    w != "" && Balanced(w) && forall k | 0 < k < |w| :: !Balanced(w[k..])
  }

  /** From a bracket, the shortest balanced text to its right is the shortest balanced text to
      the left of its end. */
  lemma FirstIsLast(w: string)
    ensures FirstBalanced(w) <==> LastBalanced(w)
  {
    if w != "" && Balanced(w) {
      forall k | 0 < k < |w| ensures Balanced(w[..k]) <==> Balanced(w[k..]) {
        assert w == w[..k] + w[k..];
        ReadAppend(w[..k], w[k..], []);
        StackIsGrammar(w);
        StackIsGrammar(w[..k]);
        StackIsGrammar(w[k..]);
        if Balanced(w[k..]) && Read(w[..k], []).Ok? { BalancedIsNeutral(w[k..], Read(w[..k], []).s); }
      }
    }
  }

  // ---------- Reading one character at a time ----------

  /** Reading `w` empties the stack, for the first time, with the last character. */
  predicate ShutsAt(w: string, s: seq<char>)
    decreases |w|
  {
    && w != ""
    && match Turn(w[0], s)
       case Clash => false
       case Ok(t) => if t == [] then |w| == 1 else ShutsAt(w[1..], t)
  }

  lemma {:induction false} ShutsByPrefixes(w: string, s: seq<char>)
    requires s != []
    ensures ShutsAt(w, s) <==> Read(w, s) == Ok([]) && forall k | 0 <= k < |w| :: Read(w[..k], s) != Ok([])
    decreases |w|
  {
    if w != "" && Turn(w[0], s).Ok? {
      var t := Turn(w[0], s).s;
      forall k | 0 < k <= |w| ensures Read(w[..k], s) == Read(w[1..][..k - 1], t) {
        assert w[..k][1..] == w[1..][..k - 1];
      }
      if t == [] {
        assert Read(w[..1], s) == Ok([]);
      } else {
        ShutsByPrefixes(w[1..], t);
        if ShutsAt(w[1..], t) {
          forall k | 0 <= k < |w| ensures Read(w[..k], s) != Ok([]) {
            if k > 0 { assert Read(w[1..][..k - 1], t) != Ok([]); }
          }
        }
        if Read(w, s) == Ok([]) && forall k | 0 <= k < |w| :: Read(w[..k], s) != Ok([]) {
          forall j | 0 <= j < |w| - 1 ensures Read(w[1..][..j], t) != Ok([]) {
            assert Read(w[..j + 1], s) == Read(w[1..][..j], t);
          }
          assert w[..|w|] == w;
        }
      }
    }
  }

  lemma {:induction false} BalancedAfterOpen(w: string)
    requires w != "" && IsOpen(w[0])
    ensures Balanced(w) <==> Read(w[1..], [w[0]]) == Ok([])
  {
    StackIsGrammar(w);
    assert [] + [w[0]] == [w[0]];
  }

  lemma {:induction false} ShutsIsFirst(w: string)
    requires w != "" && IsOpen(w[0])
    ensures FirstBalanced(w) <==> ShutsAt(w[1..], [w[0]])
  {
    var s := [w[0]];
    ShutsByPrefixes(w[1..], s);
    BalancedAfterOpen(w);
    forall k | 0 < k < |w| ensures Balanced(w[..k]) <==> Read(w[1..][..k - 1], s) == Ok([]) {
      BalancedAfterOpen(w[..k]);
      assert w[..k][1..] == w[1..][..k - 1];
    }
    if FirstBalanced(w) {
      forall j | 0 <= j < |w| - 1 ensures Read(w[1..][..j], s) != Ok([]) {
        assert !Balanced(w[..j + 1]);
      }
    }
    if ShutsAt(w[1..], s) {
      forall k | 0 < k < |w| ensures !Balanced(w[..k]) {
        assert Read(w[1..][..k - 1], s) != Ok([]);
      }
    }
  }

  lemma {:induction false} MirrorFirst(w: string)
    ensures FirstBalanced(Mirror(w)) <==> LastBalanced(w)
  {
    MirrorTwice(w);
    MirrorBalanced(w);
    forall k | 0 < k < |w| ensures Balanced(Mirror(w)[..|w| - k]) <==> Balanced(w[k..]) {
      assert w == w[..k] + w[k..];
      MirrorAppend(w[..k], w[k..]);
      MirrorTwice(w[k..]);
      assert Mirror(w)[..|w| - k] == Mirror(w[k..]);
      MirrorBalanced(w[k..]);
    }
    if FirstBalanced(Mirror(w)) {
      forall k | 0 < k < |w| ensures !Balanced(w[k..]) {
        assert !Balanced(Mirror(w)[..|w| - k]);
      }
    }
    if LastBalanced(w) {
      forall k | 0 < k < |Mirror(w)| ensures !Balanced(Mirror(w)[..k]) {
        assert !Balanced(w[|w| - k..]);
        assert |w| - (|w| - k) == k;
      }
    }
  }

  /** Such a text ends in a closing bracket if it starts with an opening one, and conversely. */
  lemma {:induction false} FirstEnds(w: string)
    requires FirstBalanced(w)
    ensures IsOpen(w[0]) <==> IsClose(w[|w| - 1])
  {
    StackIsGrammar(w);
    var n := |w| - 1;
    assert w == w[..n] + [w[n]];
    ReadAppend(w[..n], [w[n]], []);
    assert [w[n]][1..] == "";
    StackIsGrammar(w[..n]);
    StackIsGrammar(w[..1]);
    assert w[..1][1..] == "";
  }
}
