/** The string operations the engine uses: Split('`')[0], string.Join(",", …) and
    string.Format with a single "{0}" argument. */
module Strings {

  /** `s.Split('`')[0]`: the part of `s` before its first backtick. */
  function BeforeTick(s: string): (r: string)
    ensures '`' !in r
    ensures r <= s
    ensures r == s || s[|r|] == '`'
  {
    if s == [] || s[0] == '`' then [] else [s[0]] + BeforeTick(s[1..])
  }

  /** `string.Join(",", parts)`. */
  function Join(parts: seq<string>): (r: string)
    ensures parts == [] ==> r == []
  {
    if |parts| == 0 then []
    else if |parts| == 1 then parts[0]
    else parts[0] + "," + Join(parts[1..])
  }

  /** Splitting at every comma; used to state what Join keeps. */
  function Split(s: string): (r: seq<string>)
    ensures |r| >= 1
  {
    if s == [] then [[]]
    else
      var rest := Split(s[1..]);
      if s[0] == ',' then [[]] + rest else [[s[0]] + rest[0]] + rest[1..]
  }

  lemma {:induction false} SplitNoComma(s: string)
    requires ',' !in s
    ensures Split(s) == [s]
  {
    if s != [] {
      SplitNoComma(s[1..]);
      assert [s[0]] + s[1..] == s;
    }
  }

  lemma {:induction false} SplitAppendComma(a: string, b: string)
    requires ',' !in a
    ensures Split(a + "," + b) == [a] + Split(b)
  {
    if a == [] {
      assert a + "," + b == [','] + b;
      assert ([','] + b)[1..] == b;
    } else {
      assert (a + "," + b)[1..] == a[1..] + "," + b;
      SplitAppendComma(a[1..], b);
      assert [a[0]] + a[1..] == a;
    }
  }

  /** Join is undone by Split when no part holds a comma: the rendering keeps every part, in order. */
  lemma {:induction false} SplitJoin(parts: seq<string>)
    requires |parts| >= 1
    requires forall i :: 0 <= i < |parts| ==> ',' !in parts[i]
    ensures Split(Join(parts)) == parts
  {
    if |parts| == 1 {
      SplitNoComma(parts[0]);
    } else {
      SplitJoin(parts[1..]);
      SplitAppendComma(parts[0], Join(parts[1..]));
      assert [parts[0]] + parts[1..] == parts;
    }
  }

  /** `sub` occurs in `s` at position `i`. */
  predicate OccursAt(s: string, sub: string, i: int)
  {
    0 <= i && i + |sub| <= |s| && s[i..i + |sub|] == sub
  }

  /** `sub` occurs in `s`. */
  ghost predicate Contains(s: string, sub: string)
  {
    exists i :: 0 <= i <= |s| && OccursAt(s, sub, i)
  }

  lemma {:induction false} ContainsTail(s: string, sub: string)
    requires |s| >= 1 && Contains(s[1..], sub)
    ensures Contains(s, sub)
  {
    var i :| 0 <= i <= |s[1..]| && OccursAt(s[1..], sub, i);
    assert 0 <= i && i + |sub| <= |s| - 1;
    assert s[i + 1..i + 1 + |sub|] == s[1..][i..i + |sub|];
    assert OccursAt(s, sub, i + 1);
  }

  /** `string.Format(template, arg)` for templates whose only placeholder is "{0}". */
  function Format(template: string, arg: string): (r: string)
    ensures !Contains(template, "{0}") ==> r == template
  {
    if |template| >= 3 && template[..3] == "{0}" then
      assert OccursAt(template, "{0}", 0);
      arg + Format(template[3..], arg)
    else if template == [] then []
    else
      var r := [template[0]] + Format(template[1..], arg);
      assert Contains(template[1..], "{0}") ==> Contains(template, "{0}") by {
        if Contains(template[1..], "{0}") { ContainsTail(template, "{0}"); }
      }
      assert [template[0]] + template[1..] == template;
      r
  }

  lemma {:induction false} ContainsPrefix(s: string, sub: string, t: string)
    requires Contains(s, sub)
    ensures Contains(t + s, sub)
  {
    var i :| 0 <= i <= |s| && OccursAt(s, sub, i);
    assert 0 <= i && i + |sub| <= |s|;
    assert (t + s)[|t| + i..|t| + i + |sub|] == s[i..i + |sub|];
    assert OccursAt(t + s, sub, |t| + i);
  }

  /** Filling a template that has a placeholder puts the argument into the message. */
  lemma {:induction false} FormatContainsArg(template: string, arg: string)
    requires Contains(template, "{0}")
    ensures Contains(Format(template, arg), arg)
  {
    if |template| >= 3 && template[..3] == "{0}" {
      assert (arg + Format(template[3..], arg))[0..|arg|] == arg;
      assert OccursAt(arg + Format(template[3..], arg), arg, 0);
    } else {
      var i :| 0 <= i <= |template| && OccursAt(template, "{0}", i);
      assert 0 <= i && i + 3 <= |template|;
      assert i != 0;
      assert template[1..][i - 1..i + 2] == template[i..i + 3];
      assert OccursAt(template[1..], "{0}", i - 1);
      FormatContainsArg(template[1..], arg);
      ContainsPrefix(Format(template[1..], arg), arg, [template[0]]);
    }
  }
}
