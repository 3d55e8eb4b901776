/**
 * Splitting a command-line token on `:`, with the semantics of Python's
 * `str.split(':')`: the result always has at least one field, an empty
 * string yields `[""]`, adjacent separators yield empty fields, and no
 * field contains the separator.
 */
module Tokens {

  const Sep: char := ':'

  /** The fields of `s` between separators, left to right. */
  function Split(s: string): (fields: seq<string>)
    ensures |fields| >= 1
  {
    if |s| == 0 then [""]
    else
      var rest := Split(s[1..]);
      if s[0] == Sep then [""] + rest
      else [[s[0]] + rest[0]] + rest[1..]
  }

  /** The fields glued back together with the separator between them. */
  function Join(fields: seq<string>): (s: string)
    requires |fields| >= 1
    ensures fields[0] <= s
    ensures |fields| > 1 ==> |fields[0]| < |s| && s[|fields[0]|] == Sep
  {
    if |fields| == 1 then fields[0]
    else fields[0] + [Sep] + Join(fields[1..])
  }

  /** Index of the first separator in `s`, or `|s|` when there is none. */
  function FirstSep(s: string): (i: nat)
    ensures i <= |s|
    ensures i < |s| ==> s[i] == Sep
    ensures forall k :: 0 <= k < i ==> s[k] != Sep
  {
    if |s| == 0 then 0
    else if s[0] == Sep then 0
    else
      FirstSep(s[1..]) + 1
  }

  /** Joining the fields of a split gives back the original token. */
  lemma {:induction false} JoinSplit(s: string)
    ensures Join(Split(s)) == s
  {
    if |s| > 0 {
      var rest := Split(s[1..]);
      JoinSplit(s[1..]);
      var fs := Split(s);
      if s[0] != Sep {
        SplitCons(s);
      }
      if s[0] == Sep {
        assert fs == [""] + rest;
        assert fs[1..] == rest;
        assert Join(fs) == "" + [Sep] + s[1..];
      } else if |rest| == 1 {
        assert fs == [[s[0]] + rest[0]];
        assert Join(rest) == rest[0];
      } else {
        assert fs == [[s[0]] + rest[0]] + rest[1..];
        assert fs[1..] == rest[1..];
        assert Join(rest) == rest[0] + [Sep] + Join(rest[1..]);
        assert Join(fs) == ([s[0]] + rest[0]) + [Sep] + Join(rest[1..]);
        assert Join(fs) == [s[0]] + Join(rest);
      }
      assert [s[0]] + s[1..] == s;
    }
  }

  /** A token without a separator is a single field. */
  lemma {:induction false} SplitNoSep(a: string)
    requires Sep !in a
    ensures Split(a) == [a]
  {
    if |a| > 0 {
      NoSepInTail(a);
      SplitNoSep(a[1..]);
      assert [a[0]] + a[1..] == a;
    }
  }

  /** A separator-free prefix is glued onto the first field of what follows it. */
  lemma {:induction false} SplitPrefix(a: string, rest: string)
    requires Sep !in a
    ensures Split(a + rest) == [a + Split(rest)[0]] + Split(rest)[1..]
  {
    if |a| > 0 {
      NoSepInTail(a);
      SplitPrefix(a[1..], rest);
      var s, r := a + rest, Split(rest);
      assert s[0] == a[0] && s[0] != Sep;
      assert s[1..] == a[1..] + rest;
      SplitCons(s);
      assert [a[0]] + (a[1..] + r[0]) == a + r[0];
    } else {
      var r := Split(rest);
      assert a + rest == rest;
      assert a + r[0] == r[0];
      assert [r[0]] + r[1..] == r;
    }
  }

  /** A separator-free text stays separator-free without its first character. */
  lemma NoSepInTail(a: string)
    requires |a| > 0 && Sep !in a
    ensures Sep !in a[1..]
  {
    forall k | 0 <= k < |a[1..]| ensures a[1..][k] != Sep {
      assert a[1..][k] == a[k + 1];
    }
  }

  /** A first character other than the separator is glued onto the first field of the rest. */
  lemma SplitCons(s: string)
    requires |s| > 0 && s[0] != Sep
    ensures Split(s) == [[s[0]] + Split(s[1..])[0]] + Split(s[1..])[1..]
  {
  }

  /** Splitting a separator followed by `b` starts a new, empty first field. */
  lemma SplitLeadingSep(b: string)
    ensures Split([Sep] + b) == [""] + Split(b)
  {
    assert ([Sep] + b)[1..] == b;
  }

  /**
   * The head of a token is the text before its first colon (all of it when
   * there is none); the remaining fields are the split of the text after it.
   */
  lemma {:induction false} HeadIsTextBeforeFirstSep(s: string)
    ensures Split(s)[0] == s[..FirstSep(s)]
    ensures FirstSep(s) == |s| ==> Split(s) == [s]
    ensures FirstSep(s) < |s| ==> Split(s)[1..] == Split(s[FirstSep(s) + 1..])
  {
    var i := FirstSep(s);
    if i == |s| {
      assert s[..i] == s;
      SplitNoSep(s);
    } else {
      SplitAtFirstSep(s, i);
      var fs, tail := Split(s), Split(s[i + 1..]);
      assert fs == [s[..i]] + tail;
      assert fs[1..] == tail;
    }
  }

  /** Cutting a token at its first separator. */
  lemma SplitAtFirstSep(s: string, i: nat)
    requires i < |s| && s[i] == Sep && Sep !in s[..i]
    ensures Split(s) == [s[..i]] + Split(s[i + 1..])
  {
    CutAt(s, i);
    SplitAtSep(s[..i], s[i + 1..]);
  }

  /** A token is the text before position `i`, the separator there, and the text after it. */
  lemma CutAt(s: string, i: nat)
    requires i < |s| && s[i] == Sep
    ensures s == s[..i] + [Sep] + s[i + 1..]
  {
    assert s == s[..i] + s[i..];
    assert s[i..] == [Sep] + s[i + 1..];
  }

  /** A separator-free `a`, a separator and `b` split into `a` and the fields of `b`. */
  lemma SplitAtSep(a: string, b: string)
    requires Sep !in a
    ensures Split(a + [Sep] + b) == [a] + Split(b)
  {
    var rest := [Sep] + b;
    assert a + [Sep] + b == a + rest;
    SplitPrefix(a, rest);
    SplitLeadingSep(b);
    assert a + "" == a;
  }

  /** No field of a split contains the separator. */
  lemma {:induction false} SplitFieldsHaveNoSep(s: string)
    ensures forall k :: 0 <= k < |Split(s)| ==> Sep !in Split(s)[k]
  {
    if |s| > 0 {
      SplitFieldsHaveNoSep(s[1..]);
      var rest := Split(s[1..]);
      if s[0] != Sep {
        assert Sep !in [s[0]] + rest[0];
        assert forall k :: 1 <= k < |Split(s)| ==> Split(s)[k] == rest[k];
      } else {
        assert forall k :: 1 <= k < |Split(s)| ==> Split(s)[k] == rest[k - 1];
      }
    }
  }

  /** There is one more field than there are separators in the token. */
  lemma {:induction false} SplitFieldCount(s: string)
    ensures |Split(s)| == multiset(s)[Sep] + 1
  {
    if |s| > 0 {
      SplitFieldCount(s[1..]);
      assert s == [s[0]] + s[1..];
      assert multiset(s) == multiset{s[0]} + multiset(s[1..]);
    }
  }

  /** Splitting a join of separator-free fields gives back the fields. */
  lemma {:induction false} SplitJoin(fields: seq<string>)
    requires |fields| >= 1
    requires forall k :: 0 <= k < |fields| ==> Sep !in fields[k]
    ensures Split(Join(fields)) == fields
  {
    if |fields| == 1 {
      SplitNoSep(fields[0]);
    } else {
      var tail := fields[1..];
      SplitJoin(tail);
      var rest := [Sep] + Join(tail);
      assert fields[0] + [Sep] + Join(tail) == fields[0] + rest;
      SplitPrefix(fields[0], rest);
      SplitLeadingSep(Join(tail));
      assert Split(rest) == [""] + tail;
      assert fields[0] + "" == fields[0];
      assert [fields[0]] + tail == fields;
    }
  }
}
