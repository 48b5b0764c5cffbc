/**
 * The two Python string operations the prompt composer is built from:
 * `str.replace` (every non-overlapping occurrence, leftmost first, one pass,
 * the replacement text never scanned again) and `str.format` with keyword
 * arguments. `str.split` and `str.join` are here as an independent
 * formulation of `str.replace`: joining the pieces of a split with the
 * replacement is a standard equivalent of replacing every occurrence.
 */
module PyStr {
  import opened Wrappers

  /** `s.replace(pat, rep)` for a non-empty `pat`. */
  function Replace(s: string, pat: string, rep: string): string
    requires pat != []
    decreases |s|
  {
    if s == [] then []
    else if pat <= s then rep + Replace(s[|pat|..], pat, rep)
    else [s[0]] + Replace(s[1..], pat, rep)
  }

  /** `s.count(pat)`: the number of non-overlapping occurrences, scanning from the left. */
  function Count(s: string, pat: string): nat
    requires pat != []
    decreases |s|
  {
    if s == [] then 0
    else if pat <= s then 1 + Count(s[|pat|..], pat)
    else Count(s[1..], pat)
  }

  /** `s.split(sep)`, with `cur` the part read so far. */
  function SplitFrom(s: string, sep: string, cur: string): seq<string>
    requires sep != []
    decreases |s|
  {
    if s == [] then [cur]
    else if sep <= s then [cur] + SplitFrom(s[|sep|..], sep, [])
    else SplitFrom(s[1..], sep, cur + [s[0]])
  }

  /** `s.split(sep)` for a non-empty `sep`. */
  function Split(s: string, sep: string): seq<string>
    requires sep != []
  {
    SplitFrom(s, sep, [])
  }

  /** `sep.join(parts)`. */
  function Join(parts: seq<string>, sep: string): string
    decreases |parts|
  {
    if parts == [] then []
    else if |parts| == 1 then parts[0]
    else parts[0] + sep + Join(parts[1..], sep)
  }

  /** No occurrence of `pat` starts before position `n` of `s`. */
  predicate NoMatchBefore(s: string, pat: string, n: nat)
    requires n <= |s|
  {
    forall i :: 0 <= i < n ==> !(pat <= s[i..])
  }

  lemma {:induction false} SplitFromNonEmpty(s: string, sep: string, cur: string)
    requires sep != []
    ensures |SplitFrom(s, sep, cur)| >= 1
    decreases |s|
  {
    if s == [] {
    } else if sep <= s {
      SplitFromNonEmpty(s[|sep|..], sep, []);
    } else {
      SplitFromNonEmpty(s[1..], sep, cur + [s[0]]);
    }
  }

  lemma {:induction false} JoinCons(x: string, rest: seq<string>, sep: string)
    requires rest != []
    ensures Join([x] + rest, sep) == x + sep + Join(rest, sep)
  {
    assert ([x] + rest)[1..] == rest;
  }

  /**
   * The split/join formulation of `str.replace`, a standard equivalent:
   * `s.replace(pat, rep) == rep.join(s.split(pat))`, generalised to a part
   * already begun.
   */
  lemma {:induction false} ReplaceFromSplit(s: string, pat: string, rep: string, cur: string)
    requires pat != []
    ensures Join(SplitFrom(s, pat, cur), rep) == cur + Replace(s, pat, rep)
    decreases |s|
  {
    if s == [] {
      assert cur + [] == cur;
    } else if pat <= s {
      var t := s[|pat|..];
      var rest := SplitFrom(t, pat, []);
      assert SplitFrom(s, pat, cur) == [cur] + rest;
      SplitFromNonEmpty(t, pat, []);
      ReplaceFromSplit(t, pat, rep, []);
      assert Join(rest, rep) == Replace(t, pat, rep) by {
        assert [] + Replace(t, pat, rep) == Replace(t, pat, rep);
      }
      JoinCons(cur, rest, rep);
      assert Replace(s, pat, rep) == rep + Replace(t, pat, rep);
      AppendAssoc(cur, rep, Replace(t, pat, rep));
    } else {
      assert SplitFrom(s, pat, cur) == SplitFrom(s[1..], pat, cur + [s[0]]);
      ReplaceFromSplit(s[1..], pat, rep, cur + [s[0]]);
      assert Replace(s, pat, rep) == [s[0]] + Replace(s[1..], pat, rep);
      AppendAssoc(cur, [s[0]], Replace(s[1..], pat, rep));
    }
  }

  lemma {:induction false} AppendAssoc(x: string, y: string, z: string)
    ensures x + y + z == x + (y + z)
  {
  }

  lemma {:induction false} ReplaceIsJoinOfSplit(s: string, pat: string, rep: string)
    requires pat != []
    ensures Replace(s, pat, rep) == Join(Split(s, pat), rep)
  {
    ReplaceFromSplit(s, pat, rep, []);
  }

  /** Replacing a pattern by itself changes nothing. */
  lemma {:induction false} ReplaceBySelf(s: string, pat: string)
    requires pat != []
    ensures Replace(s, pat, pat) == s
    decreases |s|
  {
    if s == [] {
    } else if pat <= s {
      ReplaceBySelf(s[|pat|..], pat);
      assert s == pat + s[|pat|..];
    } else {
      ReplaceBySelf(s[1..], pat);
      assert s == [s[0]] + s[1..];
    }
  }

  /** `sep.join(s.split(sep)) == s`: splitting loses nothing. */
  lemma {:induction false} SplitJoinRoundTrip(s: string, sep: string)
    requires sep != []
    ensures Join(Split(s, sep), sep) == s
  {
    ReplaceIsJoinOfSplit(s, sep, sep);
    ReplaceBySelf(s, sep);
  }

  /** `len(s.split(sep)) == s.count(sep) + 1`. */
  lemma {:induction false} SplitFromLength(s: string, sep: string, cur: string)
    requires sep != []
    ensures |SplitFrom(s, sep, cur)| == Count(s, sep) + 1
    decreases |s|
  {
    if s == [] {
    } else if sep <= s {
      SplitFromLength(s[|sep|..], sep, []);
    } else {
      SplitFromLength(s[1..], sep, cur + [s[0]]);
    }
  }

  /** Every occurrence grows or shrinks the text by the difference in length. */
  lemma {:induction false} ReplaceLength(s: string, pat: string, rep: string)
    requires pat != []
    ensures |Replace(s, pat, rep)| == |s| + Count(s, pat) * (|rep| - |pat|)
    decreases |s|
  {
    if s == [] {
    } else if pat <= s {
      var t := s[|pat|..];
      ReplaceLength(t, pat, rep);
      assert Replace(s, pat, rep) == rep + Replace(t, pat, rep);
      assert Count(s, pat) == 1 + Count(t, pat);
      var c, d := Count(t, pat), |rep| - |pat|;
      OneMoreTimes(c, d);
      assert |t| == |s| - |pat|;
      assert |Replace(s, pat, rep)| == |rep| + |t| + c * d;
    } else {
      ReplaceLength(s[1..], pat, rep);
      assert Replace(s, pat, rep) == [s[0]] + Replace(s[1..], pat, rep);
      assert Count(s, pat) == Count(s[1..], pat);
    }
  }

  lemma OneMoreTimes(c: int, d: int)
    ensures (1 + c) * d == d + c * d
  {
  }

  /**
   * The replacement text is emitted verbatim and never scanned again: once
   * the leftmost occurrence is found, scanning resumes in the original text
   * right after it, even when `rep` itself contains `pat`.
   */
  lemma {:induction false} ReplaceLeftmost(pre: string, post: string, pat: string, rep: string)
    requires pat != []
    requires NoMatchBefore(pre + pat + post, pat, |pre|)
    ensures Replace(pre + pat + post, pat, rep) == pre + rep + Replace(post, pat, rep)
    decreases |pre|
  {
    var s := pre + pat + post;
    if pre == [] {
      assert s == pat + post;
      ReplaceAtStart(post, pat, rep);
    } else {
      var s' := pre[1..] + pat + post;
      assert s[0..] == s;
      assert !(pat <= s);
      assert s[1..] == s';
      assert Replace(s, pat, rep) == [pre[0]] + Replace(s', pat, rep);
      forall i | 0 <= i < |pre| - 1
        ensures !(pat <= s'[i..])
      {
        assert s'[i..] == s[i + 1..];
      }
      ReplaceLeftmost(pre[1..], post, pat, rep);
      AppendAssoc([pre[0]], pre[1..] + rep, Replace(post, pat, rep));
      AppendAssoc([pre[0]], pre[1..], rep);
      assert [pre[0]] + pre[1..] == pre;
    }
  }

  /** Text lacking a character the pattern needs has no occurrence and is left alone. */
  lemma {:induction false} ReplaceAbsent(s: string, pat: string, rep: string, c: char)
    requires pat != [] && c in pat && c !in s
    ensures Replace(s, pat, rep) == s
    decreases |s|
  {
    if s == [] {
    } else {
      ReplaceAbsent(s[1..], pat, rep, c);
      assert s == [s[0]] + s[1..];
    }
  }

  /** A character that is not in the pattern splits the text into parts replaced independently. */
  lemma {:induction false} ReplaceSeparated(a: string, c: char, b: string, pat: string, rep: string)
    requires pat != [] && c !in pat
    ensures Replace(a + [c] + b, pat, rep) == Replace(a, pat, rep) + [c] + Replace(b, pat, rep)
    decreases |a|
  {
    var s := a + [c] + b;
    if a == [] {
      assert s == [c] + b;
      assert s[0] == c && pat[0] in pat;
      assert !(pat <= s);
      assert s[1..] == b;
      assert Replace(a, pat, rep) == [];
    } else if pat <= s {
      assert s[|a|] == c;
      assert |pat| <= |a|;
      assert pat <= a by {
        assert forall i | 0 <= i < |pat| :: pat[i] == s[i] == a[i];
      }
      var t := a[|pat|..];
      assert s[|pat|..] == t + [c] + b;
      ReplaceSeparated(t, c, b, pat, rep);
      assert Replace(s, pat, rep) == rep + Replace(t + [c] + b, pat, rep);
      assert Replace(a, pat, rep) == rep + Replace(t, pat, rep);
      AppendAssoc(rep, Replace(t, pat, rep), [c]);
      AppendAssoc(rep + Replace(t, pat, rep), [c], Replace(b, pat, rep));
      AppendAssoc(rep, Replace(t, pat, rep) + [c], Replace(b, pat, rep));
    } else {
      assert forall i | 0 <= i < |a| :: a[i] == s[i];
      assert !(pat <= a);
      var t := a[1..];
      assert s[1..] == t + [c] + b;
      ReplaceSeparated(t, c, b, pat, rep);
      assert Replace(s, pat, rep) == [a[0]] + Replace(t + [c] + b, pat, rep);
      assert Replace(a, pat, rep) == [a[0]] + Replace(t, pat, rep);
      AppendAssoc([a[0]], Replace(t, pat, rep), [c]);
      AppendAssoc([a[0]] + Replace(t, pat, rep), [c], Replace(b, pat, rep));
      AppendAssoc([a[0]], Replace(t, pat, rep) + [c], Replace(b, pat, rep));
    }
  }

  /** A prefix without the pattern's first character is copied unchanged. */
  lemma {:induction false} ReplaceCleanPrefix(a: string, t: string, pat: string, rep: string)
    requires pat != [] && pat[0] !in a
    ensures Replace(a + t, pat, rep) == a + Replace(t, pat, rep)
    decreases |a|
  {
    if a == [] {
      assert a + t == t;
    } else {
      assert (a + t)[1..] == a[1..] + t;
      ReplaceCleanPrefix(a[1..], t, pat, rep);
    }
  }

  /** The occurrence at the very start is replaced and scanning resumes after it. */
  lemma {:induction false} ReplaceAtStart(t: string, pat: string, rep: string)
    requires pat != []
    ensures Replace(pat + t, pat, rep) == rep + Replace(t, pat, rep)
  {
    var s := pat + t;
    assert pat <= s;
    assert s[|pat|..] == t;
  }

  // ---------------------------------------------------------------------
  // str.format with keyword arguments

  /** The index of the first `c` in `s`. */
  function IndexOf(s: string, c: char): (r: Option<nat>)
    ensures r.None? ==> c !in s
    ensures r.Some? ==> r.value < |s| && s[r.value] == c && c !in s[..r.value]
  {
    if s == [] then None
    else if s[0] == c then Some(0)
    else match IndexOf(s[1..], c)
      case None => None
      case Some(j) => assert s[..j + 1] == [s[0]] + s[1..][..j]; Some(j + 1)
  }

  function Prepend(x: string, o: Option<string>): Option<string>
  {
    match o
    case None => None
    case Some(v) => Some(x + v)
  }

  /**
   * `t.format(**args)` for templates whose replacement fields are plain
   * names: `{{` and `}}` stand for single braces, `{name}` is replaced by
   * `args[name]`, and `None` stands for the exception Python raises (an
   * unknown name, a lone `}`, an unclosed `{`, a `{` inside a field).
   */
  function Format(t: string, args: map<string, string>): Option<string>
    decreases |t|
  {
    if t == [] then Some([])
    else if t[0] == '{' then
      if |t| > 1 && t[1] == '{' then Prepend("{", Format(t[2..], args))
      else match IndexOf(t[1..], '}')
        case None => None
        case Some(j) =>
          var name := t[1..j + 1];
          if '{' !in name && name in args then Prepend(args[name], Format(t[j + 2..], args))
          else None
    else if t[0] == '}' then
      if |t| > 1 && t[1] == '}' then Prepend("}", Format(t[2..], args))
      else None
    else Prepend([t[0]], Format(t[1..], args))
  }

  lemma {:induction false} PrependTwice(x: string, y: string, o: Option<string>)
    ensures Prepend(x, Prepend(y, o)) == Prepend(x + y, o)
  {
    match o
    case None =>
    case Some(v) => assert x + (y + v) == (x + y) + v;
  }

  /** Text without braces is copied to the output unchanged. */
  lemma {:induction false} FormatPlain(x: string, t: string, args: map<string, string>)
    requires '{' !in x && '}' !in x
    ensures Format(x + t, args) == Prepend(x, Format(t, args))
    decreases |x|
  {
    if x == [] {
      assert x + t == t;
      match Format(t, args)
      case None =>
      case Some(v) => assert x + v == v;
    } else {
      var s := x + t;
      assert s[0] == x[0] && s[1..] == x[1..] + t;
      assert Format(s, args) == Prepend([x[0]], Format(x[1..] + t, args));
      FormatPlain(x[1..], t, args);
      PrependTwice([x[0]], x[1..], Format(t, args));
      assert [x[0]] + x[1..] == x;
    }
  }

  lemma {:induction false} IndexOfAt(s: string, c: char, k: nat)
    requires k < |s| && s[k] == c && c !in s[..k]
    ensures IndexOf(s, c) == Some(k)
    decreases k
  {
    if k > 0 {
      assert s[0] in s[..k];
      assert s[1..][..k - 1] == s[1..k];
      assert forall i | 0 <= i < k - 1 :: s[1..][i] == s[..k][i + 1];
      IndexOfAt(s[1..], c, k - 1);
    }
  }

  /** A field is replaced by its argument, inserted verbatim (never parsed as a template). */
  lemma {:induction false} FormatField(name: string, t: string, args: map<string, string>)
    requires '{' !in name && '}' !in name && name != []
    ensures Format("{" + name + "}" + t, args)
            == if name in args then Prepend(args[name], Format(t, args)) else None
  {
    var s := "{" + name + "}" + t;
    assert s[0] == '{' && s[1] == name[0];
    assert s[1..] == name + "}" + t;
    assert (name + "}" + t)[|name|] == '}';
    assert (name + "}" + t)[..|name|] == name;
    IndexOfAt(s[1..], '}', |name|);
    assert s[1..|name| + 1] == name;
    assert s[|name| + 2..] == t;
  }

  /** Plain text and then a field: the text is copied and the field's value inserted after it. */
  lemma {:induction false} FormatTextField(head: string, name: string, t: string, args: map<string, string>)
    requires '{' !in head && '}' !in head
    requires '{' !in name && '}' !in name && name != [] && name in args
    ensures Format(head + "{" + name + "}" + t, args) == Prepend(head + args[name], Format(t, args))
  {
    FormatField(name, t, args);
    FormatPlain(head, "{" + name + "}" + t, args);
    assert head + "{" + name + "}" + t == head + ("{" + name + "}" + t);
    PrependTwice(head, args[name], Format(t, args));
  }

  /** A template of plain text and two fields, each value inserted once and verbatim. */
  lemma {:induction false} FormatTwoFields(head: string, n1: string, mid: string, n2: string, tail: string, args: map<string, string>)
    requires '{' !in head && '}' !in head && '{' !in mid && '}' !in mid && '{' !in tail && '}' !in tail
    requires '{' !in n1 && '}' !in n1 && n1 != [] && n1 in args
    requires '{' !in n2 && '}' !in n2 && n2 != [] && n2 in args
    ensures Format(head + "{" + n1 + "}" + mid + "{" + n2 + "}" + tail, args)
            == Some(head + args[n1] + mid + args[n2] + tail)
  {
    var v1, v2 := args[n1], args[n2];
    var t2 := mid + "{" + n2 + "}" + tail;
    FormatPlain(tail, [], args);
    assert tail + [] == tail;
    FormatTextField(mid, n2, tail, args);
    FormatTextField(head, n1, t2, args);
    assert head + "{" + n1 + "}" + mid + "{" + n2 + "}" + tail == head + "{" + n1 + "}" + t2;
    assert head + v1 + (mid + v2 + tail) == head + v1 + mid + v2 + tail;
  }
}
