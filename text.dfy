/**
 * Text helpers shared by the query compiler: the write buffer that stands for
 * `bytes.Buffer` / `io.Writer`, and a bracket scanner used to state that the
 * generated text is well nested.
 */
module Text {

  /** An append-only text buffer; `WriteString` is `io.WriteString(w, s)`. */
  class Writer {
    var data: string

    constructor ()
      ensures data == []
    {
      data := [];
    }

    method WriteString(s: string)
      modifies this
      ensures data == old(data) + s
    {
      data := data + s;
    }
  }

  /**
   * Scans `s` left to right from nesting depth `d`, counting `open` and `close`.
   * The result is the final depth, or -1 if some `close` has no matching `open`.
   */
  function Scan(s: string, d: nat, open: char, close: char): (r: int)
    ensures r >= -1
    decreases |s|
  {
    if s == [] then d
    else if s[0] == open then Scan(s[1..], d + 1, open, close)
    else if s[0] == close then (if d == 0 then -1 else Scan(s[1..], d - 1, open, close))
    else Scan(s[1..], d, open, close)
  }

  /** Every `close` matches an earlier `open` and every `open` is closed. */
  predicate Balanced(s: string, open: char, close: char) {
    Scan(s, 0, open, close) == 0
  }

  /** Starting deeper shifts the final depth by the same amount. */
  lemma {:induction false} ScanShift(s: string, d: nat, k: nat, open: char, close: char)
    requires Scan(s, d, open, close) >= 0
    ensures Scan(s, d + k, open, close) == Scan(s, d, open, close) + k
    decreases |s|
  {
    if s != [] {
      if s[0] == open {
        ScanShift(s[1..], d + 1, k, open, close);
      } else if s[0] == close {
        ScanShift(s[1..], d - 1, k, open, close);
      } else {
        ScanShift(s[1..], d, k, open, close);
      }
    }
  }

  /** Scanning a concatenation scans the second part from where the first ended. */
  lemma {:induction false} ScanConcat(a: string, b: string, d: nat, open: char, close: char)
    ensures Scan(a + b, d, open, close)
         == (var m := Scan(a, d, open, close); if m < 0 then -1 else Scan(b, m, open, close))
    decreases |a|
  {
    if a == [] {
      assert a + b == b;
    } else {
      assert (a + b)[0] == a[0] && (a + b)[1..] == a[1..] + b;
      if a[0] == open {
        ScanConcat(a[1..], b, d + 1, open, close);
      } else if a[0] == close {
        if d != 0 {
          ScanConcat(a[1..], b, d - 1, open, close);
        }
      } else {
        ScanConcat(a[1..], b, d, open, close);
      }
    }
  }

  lemma BalancedConcat(a: string, b: string, open: char, close: char)
    requires Balanced(a, open, close) && Balanced(b, open, close)
    ensures Balanced(a + b, open, close)
  {
    ScanConcat(a, b, 0, open, close);
  }

  /** Wrapping a balanced text in one more pair keeps it balanced. */
  lemma BalancedWrap(x: string, open: char, close: char)
    requires open != close
    requires Balanced(x, open, close)
    ensures Balanced([open] + x + [close], open, close)
  {
    var s := [open] + x + [close];
    assert s[0] == open && s[1..] == x + [close];
    ScanConcat(x, [close], 1, open, close);
    ScanShift(x, 0, 1, open, close);
    assert Scan([close], 1, open, close) == Scan([], 0, open, close);
  }

  /** A text with neither bracket character is trivially balanced at any depth. */
  lemma {:induction false} FreeScan(s: string, d: nat, open: char, close: char)
    requires open !in s && close !in s
    ensures Scan(s, d, open, close) == d
    decreases |s|
  {
    if s != [] {
      assert s[0] in s;
      assert forall c :: c in s[1..] ==> c in s;
      FreeScan(s[1..], d, open, close);
    }
  }

  lemma FreeBalanced(s: string, open: char, close: char)
    requires open !in s && close !in s
    ensures Balanced(s, open, close)
  {
    FreeScan(s, 0, open, close);
  }

  /** The prefix of `s` before the first `c` (all of `s` when there is none). */
  function TakeUntil(s: string, c: char): (r: string)
    ensures |r| <= |s| && r == s[..|r|] && c !in r
    ensures |r| < |s| ==> s[|r|] == c
  {
    if s == [] || s[0] == c then [] else [s[0]] + TakeUntil(s[1..], c)
  }

  /** The suffix of `s` from the first `c` on (empty when there is none). */
  function DropUntil(s: string, c: char): (r: string)
    ensures |r| <= |s| && r == s[|s| - |r|..]
    ensures r != [] ==> r[0] == c && c !in s[..|s| - |r|]
  {
    if s == [] || s[0] == c then s
    else
      var r := DropUntil(s[1..], c);
      assert s[1..][..|s| - 1 - |r|] == s[1..|s| - |r|];
      r
  }

  /** A prefix free of `c` followed by text at `c` (or by nothing) is cut off exactly. */
  lemma {:induction false} TakeUntilConcat(a: string, b: string, c: char)
    requires c !in a
    requires b == [] || b[0] == c
    ensures TakeUntil(a + b, c) == a
    decreases |a|
  {
    if a == [] {
      assert a + b == b;
    } else {
      assert (a + b)[0] == a[0] && (a + b)[1..] == a[1..] + b;
      assert forall x :: x in a[1..] ==> x in a;
      TakeUntilConcat(a[1..], b, c);
    }
  }

  /** A prefix free of `c` is skipped by `DropUntil`. */
  lemma {:induction false} DropUntilConcat(a: string, b: string, c: char)
    requires c !in a
    ensures DropUntil(a + b, c) == DropUntil(b, c)
    decreases |a|
  {
    if a == [] {
      assert a + b == b;
    } else {
      assert (a + b)[0] == a[0] && (a + b)[1..] == a[1..] + b;
      assert forall x :: x in a[1..] ==> x in a;
      DropUntilConcat(a[1..], b, c);
    }
  }
}
