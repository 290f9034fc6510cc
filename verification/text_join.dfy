/**
 * Python's `", ".join(parts)` and `s.split(", ")`, with the facts that the
 * history rendering relies on.
 */
module TextJoin {

  const SEP: string := ", "

  /** `", ".join(parts)`: the parts in order, with SEP between neighbours. */
  function Join(parts: seq<string>): (r: string)
    ensures parts != [] ==> parts[0] <= r
    ensures |parts| >= 2 ==> |r| > |parts[0]| && r[|parts[0]|] == ','
    decreases |parts|
  {
    if |parts| == 0 then ""
    else if |parts| == 1 then parts[0]
    else parts[0] + SEP + Join(parts[1..])
  }

  /** `s.split(", ")`: scans left to right, cutting at each occurrence of SEP. */
  function Split(s: string): (parts: seq<string>)
    ensures |parts| >= 1
    decreases |s|
  {
    if |s| == 0 then [""]
    else if |s| >= 2 && s[0] == ',' && s[1] == ' ' then [""] + Split(s[2..])
    else
      var rest := Split(s[1..]);
      [[s[0]] + rest[0]] + rest[1..]
  }

  /** `s` has no occurrence of SEP inside it. */
  predicate HasNoSep(s: string) {
    forall i :: 0 <= i < |s| - 1 ==> !(s[i] == ',' && s[i + 1] == ' ')
  }

  predicate NoneHasSep(parts: seq<string>) {
    forall i :: 0 <= i < |parts| ==> HasNoSep(parts[i])
  }

  /** Joining two non-empty lists is joining each and putting SEP between. */
  lemma {:induction false} JoinAppend(xs: seq<string>, ys: seq<string>)
    requires xs != [] && ys != []
    ensures Join(xs + ys) == Join(xs) + SEP + Join(ys)
    decreases |xs|
  {
    if |xs| == 1 {
      assert (xs + ys)[1..] == ys;
    } else {
      JoinAppend(xs[1..], ys);
      assert (xs + ys)[1..] == xs[1..] + ys;
    }
  }

  /** Split does not cut at the start of `p + t`: `p` holds no SEP and `t` starts with a comma. */
  lemma NoCutAtStart(p: string, t: string)
    requires p != [] && HasNoSep(p)
    requires t == [] || t[0] == ','
    ensures !(|p + t| >= 2 && (p + t)[0] == ',' && (p + t)[1] == ' ')
  {
  }

  /** Where Split does not cut at the first character, that character joins the first piece. */
  lemma SplitNoCut(s: string)
    requires |s| >= 1 && !(|s| >= 2 && s[0] == ',' && s[1] == ' ')
    ensures Split(s)[0] == [s[0]] + Split(s[1..])[0]
    ensures Split(s)[1..] == Split(s[1..])[1..]
  {
  }

  /** Where Split cuts at the first character, the first piece is empty. */
  lemma SplitCut(s: string)
    requires |s| >= 2 && s[0] == ',' && s[1] == ' '
    ensures Split(s)[0] == "" && Split(s)[1..] == Split(s[2..])
  {
  }

  /**
   * Text without SEP inside it stays glued to the first piece of what follows
   * it, when that is nothing or starts with a comma; the later pieces are untouched.
   */
  lemma {:induction false} SplitOfPlainPrefix(p: string, t: string)
    requires HasNoSep(p)
    requires t == [] || t[0] == ','
    ensures Split(p + t)[0] == p + Split(t)[0]
    ensures Split(p + t)[1..] == Split(t)[1..]
    decreases |p|
  {
    if p == [] {
      assert p + t == t;
      assert p + Split(t)[0] == Split(t)[0];
    } else {
      HasNoSepTail(p);
      SplitOfPlainPrefix(p[1..], t);
      NoCutAtStart(p, t);
      var s := p + t;
      assert s[0] == p[0] && s[1..] == p[1..] + t;
      SplitNoCut(s);
      ConsAppend(p, Split(t)[0]);
    }
  }

  /** Dropping the first character keeps text free of SEP. */
  lemma HasNoSepTail(p: string)
    requires p != [] && HasNoSep(p)
    ensures HasNoSep(p[1..])
  {
  }

  /** Putting back the first character of `p` in front of `p[1..] + x`. */
  lemma ConsAppend(p: string, x: string)
    requires p != []
    ensures [p[0]] + (p[1..] + x) == p + x
  {
  }

  /** Splitting undoes joining when no part has SEP inside it. */
  lemma {:induction false} SplitJoin(parts: seq<string>)
    requires parts != [] && NoneHasSep(parts)
    ensures Split(Join(parts)) == parts
    decreases |parts|
  {
    var first := parts[0];
    var pieces := Split(Join(parts));
    if |parts| == 1 {
      SplitOfPlainPrefix(first, "");
      assert first + "" == first;
      assert pieces == [pieces[0]] + pieces[1..];
    } else {
      var rest := parts[1..];
      assert NoneHasSep(rest) by {
        forall i | 0 <= i < |rest| ensures HasNoSep(rest[i]) {
          assert rest[i] == parts[i + 1];
        }
      }
      SplitJoin(rest);
      SplitJoinStep(first, rest);
      assert parts == [first] + rest;
    }
  }

  /** One more plain part in front of a list that Split already recovers. */
  lemma SplitJoinStep(first: string, rest: seq<string>)
    requires HasNoSep(first) && rest != [] && Split(Join(rest)) == rest
    ensures Split(Join([first] + rest)) == [first] + rest
  {
    var parts := [first] + rest;
    var tail := SEP + Join(rest);
    assert parts[0] == first && parts[1..] == rest;
    assert Join(parts) == first + tail;
    assert tail[0] == ',' && tail[1] == ' ' && tail[2..] == Join(rest);
    SplitCut(tail);
    SplitOfPlainPrefix(first, tail);
    assert first + "" == first;
    var pieces := Split(Join(parts));
    assert pieces == [pieces[0]] + pieces[1..];
  }
}
