/** `"\n\n".join` and `text.split("\n\n")`: what splitting gives back of what was joined. */
module Joining {

  const BREAK: string := "\n\n"

  function JoinWith(sep: string, ts: seq<string>): string {
    if ts == [] then "" else if |ts| == 1 then ts[0] else ts[0] + sep + JoinWith(sep, ts[1..])
  }

  function Join(ts: seq<string>): string {
    JoinWith(BREAK, ts)
  }

  predicate BreakAt(s: string, k: nat) {
    k + 1 < |s| && s[k] == '\n' && s[k + 1] == '\n'
  }

  /** The first break at or after `i`, or the end of the text. */
  function FindBreak(s: string, i: nat): (r: nat)
    requires i <= |s|
    ensures i <= r <= |s|
    ensures r < |s| ==> BreakAt(s, r)
    ensures forall k :: i <= k < r ==> !BreakAt(s, k)
    decreases |s| - i
  {
    if i == |s| || BreakAt(s, i) then i else FindBreak(s, i + 1)
  }

  function Split(s: string): (ps: seq<string>)
    ensures ps != []
  {
    var k := FindBreak(s, 0);
    if k == |s| then [s] else [s[..k]] + Split(s[k + 2..])
  }

  predicate NoBreak(s: string) {
    forall k :: 0 <= k < |s| ==> !BreakAt(s, k)
  }

  predicate EndsWithNewline(s: string) {
    s != "" && s[|s| - 1] == '\n'
  }

  /** What a list of texts must satisfy for splitting to recover it. */
  predicate Recoverable(ts: seq<string>) {
    && ts != []
    && (forall k :: 0 <= k < |ts| ==> NoBreak(ts[k]))
    && (forall k :: 0 <= k < |ts| - 1 ==> !EndsWithNewline(ts[k]))
  }

  lemma FindBreakIs(s: string, k: nat)
    requires k < |s| && BreakAt(s, k)
    requires forall j :: 0 <= j < k ==> !BreakAt(s, j)
    ensures FindBreak(s, 0) == k
  {
    var r := FindBreak(s, 0);
    assert r <= k;
    assert r < |s|;
  }

  /** Joining always undoes splitting. */
  lemma {:induction false} JoinOfSplit(s: string)
    ensures Join(Split(s)) == s
  {
    var k := FindBreak(s, 0);
    if k < |s| {
      var rest := Split(s[k + 2..]);
      JoinOfSplit(s[k + 2..]);
      assert Split(s)[1..] == rest;
      assert s == s[..k] + BREAK + s[k + 2..];
    }
  }

  lemma {:induction false} PiecesRecoverable(s: string)
    ensures Recoverable(Split(s))
  {
    var k := FindBreak(s, 0);
    if k < |s| {
      PiecesRecoverable(s[k + 2..]);
      var ps, rest := Split(s), Split(s[k + 2..]);
      assert forall j :: 0 <= j < |s[..k]| ==> BreakAt(s[..k], j) ==> BreakAt(s, j);
      assert !EndsWithNewline(s[..k]) by {
        assert k > 0 && s[k - 1] == '\n' ==> BreakAt(s, k - 1);
      }
      assert forall j :: 0 < j < |ps| ==> ps[j] == rest[j - 1];
    }
  }

  lemma {:induction false} SplitOfJoin(ts: seq<string>)
    requires Recoverable(ts)
    ensures Split(Join(ts)) == ts
  {
    var t, s := ts[0], Join(ts);
    if |ts| == 1 {
      assert FindBreak(t, 0) == |t|;
    } else {
      var rest := ts[1..];
      SplitOfJoin(rest);
      assert s == t + BREAK + Join(rest);
      assert NoBreak(t) && !EndsWithNewline(t);
      forall j | 0 <= j < |t| ensures !BreakAt(s, j) {
        assert s[j] == t[j];
        assert !BreakAt(t, j);
      }
      FindBreakIs(s, |t|);
      assert s[..|t|] == t && s[|t| + 2..] == Join(rest);
    }
  }

  /**
   * Splitting recovers the texts that were joined exactly when none of them holds an empty line and none
   * but the last ends with a newline.
   */
  lemma SplitRecovers(ts: seq<string>)
    ensures Split(Join(ts)) == ts <==> Recoverable(ts)
  {
    if Recoverable(ts) {
      SplitOfJoin(ts);
    }
    PiecesRecoverable(Join(ts));
  }

  lemma JoinCons(t: string, rest: seq<string>)
    requires rest != []
    ensures Join([t] + rest) == t + BREAK + Join(rest)
  {
    assert ([t] + rest)[1..] == rest;
  }

  lemma JoinPrefixed(t: string, rest: seq<string>)
    requires rest != []
    ensures Join([t + rest[0]] + rest[1..]) == t + Join(rest)
  {
    if |rest| > 1 {
      JoinCons(t + rest[0], rest[1..]);
    }
  }

  lemma {:induction false} SplitStep(s: string, k: nat)
    requires k == FindBreak(s, 0)
    ensures k == |s| ==> |Split(s)| == 1
    ensures k < |s| ==> |Split(s)| == 1 + |Split(s[k + 2..])|
  {
    hide FindBreak;
  }

  /** Splitting never gives fewer pieces than there were texts, so every chunk gets some piece. */
  lemma {:induction false} SplitCount(ts: seq<string>)
    requires ts != []
    ensures |Split(Join(ts))| >= |ts|
    decreases |ts|, |ts[0]|
  {
    hide Split, JoinWith, Join;
    var t, s := ts[0], Join(ts);
    SplitStep(s, FindBreak(s, 0));
    if |ts| > 1 {
      var rest := ts[1..];
      assert ts == [t] + rest;
      JoinCons(t, rest);
      assert BreakAt(s, |t|);
      var k := FindBreak(s, 0);
      assert k <= |t|;
      if k == |t| {
        assert s[k + 2..] == Join(rest);
        SplitCount(rest);
      } else if k + 1 == |t| {
        JoinPrefixed("\n", rest);
        assert s[k + 2..] == "\n" + Join(rest);
        SplitCount(["\n" + rest[0]] + rest[1..]);
      } else {
        JoinCons(t[k + 2..], rest);
        assert s[k + 2..] == t[k + 2..] + BREAK + Join(rest);
        SplitCount([t[k + 2..]] + rest);
      }
    }
  }

  lemma {:induction false} JoinLonger(ts: seq<string>, n: nat)
    requires 0 < n <= |ts|
    ensures n == |ts| || |Join(ts[..n])| + 2 <= |Join(ts)|
  {
    if n < |ts| {
      assert ts[..n][1..] == ts[1..][..n - 1];
      if n > 1 {
        JoinLonger(ts[1..], n - 1);
      }
    }
  }

  /** Keeping the first pieces keeps the whole text exactly when there are no further pieces. */
  lemma FirstPiecesKeepText(s: string, n: nat)
    requires 0 < n <= |Split(s)|
    ensures Join(Split(s)[..n]) == s <==> n == |Split(s)|
  {
    JoinOfSplit(s);
    JoinLonger(Split(s), n);
    assert n == |Split(s)| ==> Split(s)[..n] == Split(s);
  }
}
