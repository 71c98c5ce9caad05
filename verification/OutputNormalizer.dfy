/**
 * Canonical form of program output and expected output before they are
 * compared (`CodeExecutionService.normalizeOutput`): null becomes the empty
 * string, the text is trimmed, then every "\r\n" and every remaining "\r"
 * becomes "\n".
 */
module OutputNormalizer {
  import opened JavaText

  predicate NoCarriageReturn(s: string)
  {
    forall k :: 0 <= k < |s| ==> s[k] != '\r'
  }

  /** A text that normalisation leaves alone. */
  predicate IsNormal(s: string)
  {
    IsTrimmed(s) && NoCarriageReturn(s)
  }

  /** `replace("\r\n", "\n")`: left-to-right, non-overlapping. */
  function ReplaceCrLf(s: string): string
  {
    if |s| == 0 then ""
    else if |s| >= 2 && s[0] == '\r' && s[1] == '\n' then "\n" + ReplaceCrLf(s[2..])
    else [s[0]] + ReplaceCrLf(s[1..])
  }

  /** `replace("\r", "\n")`. */
  function ReplaceCr(s: string): (r: string)
    ensures |r| == |s|
    ensures NoCarriageReturn(r)
    ensures forall k :: 0 <= k < |s| ==> r[k] == (if s[k] == '\r' then '\n' else s[k])
  {
    seq(|s|, k requires 0 <= k < |s| => if s[k] == '\r' then '\n' else s[k])
  }

  /** Rewriting "\r\n" keeps the first character when it is not '\r' and the
      last one when it is not '\n'. */
  lemma {:induction false} ReplaceCrLfKeepsEnds(s: string)
    requires |s| > 0
    ensures |ReplaceCrLf(s)| > 0
    ensures s[0] != '\r' ==> ReplaceCrLf(s)[0] == s[0]
    ensures s[|s| - 1] != '\n' ==> ReplaceCrLf(s)[|ReplaceCrLf(s)| - 1] == s[|s| - 1]
  {
    if |s| >= 2 && s[0] == '\r' && s[1] == '\n' {
      if |s| > 2 {
        ReplaceCrLfKeepsEnds(s[2..]);
      }
    } else if |s| > 1 {
      ReplaceCrLfKeepsEnds(s[1..]);
    }
  }

  /** Rewriting "\r\n" never lengthens a text and turns padding into
      padding. */
  lemma {:induction false} ReplaceCrLfKeepsPadding(s: string)
    ensures |ReplaceCrLf(s)| <= |s|
    ensures AllTrimmable(s) ==> AllTrimmable(ReplaceCrLf(s))
  {
    if |s| >= 2 && s[0] == '\r' && s[1] == '\n' {
      ReplaceCrLfKeepsPadding(s[2..]);
    } else if |s| > 0 {
      ReplaceCrLfKeepsPadding(s[1..]);
    }
  }

  /** Without a '\r' there is nothing for the first replacement to do. */
  lemma {:induction false} ReplaceCrLfWithoutCr(s: string)
    requires NoCarriageReturn(s)
    ensures ReplaceCrLf(s) == s
  {
    if |s| > 0 {
      ReplaceCrLfWithoutCr(s[1..]);
    }
  }

  /** The first replacement works piece by piece, unless the cut separates
      the two characters of a "\r\n". */
  lemma {:induction false} ReplaceCrLfAppend(a: string, b: string)
    requires |a| > 0 && |b| > 0 ==> !(a[|a| - 1] == '\r' && b[0] == '\n')
    ensures ReplaceCrLf(a + b) == ReplaceCrLf(a) + ReplaceCrLf(b)
    decreases |a|
  {
    if |a| == 0 {
      assert a + b == b;
    } else if |a| >= 2 && a[0] == '\r' && a[1] == '\n' {
      ReplaceCrLfAppend(a[2..], b);
      DropAppend(a, b, 2);
    } else {
      ReplaceCrLfAppend(a[1..], b);
      DropAppend(a, b, 1);
    }
  }

  lemma DropAppend(a: string, b: string, n: nat)
    requires n <= |a|
    ensures (a + b)[n..] == a[n..] + b
  {
  }

  lemma ReplaceCrAppend(a: string, b: string)
    ensures ReplaceCr(a + b) == ReplaceCr(a) + ReplaceCr(b)
  {
    assert forall k :: 0 <= k < |a| ==> (a + b)[k] == a[k];
    assert forall k :: |a| <= k < |a + b| ==> (a + b)[k] == b[k - |a|];
  }

  /** Both replacements, applied to a whole text: every line ending, whether
      "\r\n", "\r" or "\n", becomes "\n". */
  function UnifyLineEnds(s: string): string
  {
    ReplaceCr(ReplaceCrLf(s))
  }

  lemma UnifyLineEndsAppend(a: string, b: string)
    requires |a| > 0 && |b| > 0 ==> !(a[|a| - 1] == '\r' && b[0] == '\n')
    ensures UnifyLineEnds(a + b) == UnifyLineEnds(a) + UnifyLineEnds(b)
  {
    ReplaceCrLfAppend(a, b);
    ReplaceCrAppend(ReplaceCrLf(a), ReplaceCrLf(b));
  }

  /** Trimming first and unifying line endings afterwards, as
      `normalizeOutput` does, gives what unifying first and trimming
      afterwards gives: the replacements never create or destroy padding. */
  lemma TrimThenUnify(s: string)
    ensures UnifyLineEnds(Trim(s)) == Trim(UnifyLineEnds(s))
  {
    var i, j := LeadingTrimmable(s), TrailingKept(s);
    if i < j {
      var pre, t, post := s[..i], s[i..j], s[j..];
      assert s == pre + t + post;
      assert Trim(s) == t;
      UnifyPadded(pre, t, post);
    } else {
      assert AllTrimmable(s);
      ReplaceCrLfKeepsPadding(s);
    }
  }

  lemma UnifyPadded(pre: string, t: string, post: string)
    requires AllTrimmable(pre) && AllTrimmable(post)
    requires |t| > 0 && IsTrimmed(t)
    ensures Trim(UnifyLineEnds(pre + t + post)) == UnifyLineEnds(t)
  {
    UnifyLineEndsAppend(pre, t);
    assert (pre + t)[|pre + t| - 1] == t[|t| - 1];
    UnifyLineEndsAppend(pre + t, post);
    ReplaceCrLfKeepsEnds(t);
    var u := UnifyLineEnds(t);
    assert u[0] == t[0] && u[|u| - 1] == t[|t| - 1];
    ReplaceCrLfKeepsPadding(pre);
    ReplaceCrLfKeepsPadding(post);
    TrimStripsPadding(UnifyLineEnds(pre), u, UnifyLineEnds(post));
  }

  /** `normalizeOutput`. */
  function NormalizeOutput(s: Option<string>): (r: string)
    ensures s.Null? ==> r == ""
    ensures IsNormal(r)
    ensures s.Some? ==> (r == "" <==> AllTrimmable(s.value))
  {
    if s.Null? then ""
    else
      var t := Trim(s.value);
      var r := ReplaceCr(ReplaceCrLf(t));
      if |t| > 0 then
        ReplaceCrLfKeepsEnds(t);
        r
      else
        r
  }

  /** Normalising a text is unifying its line endings and trimming the
      padding, in either order. */
  lemma NormalizeUnifiesLineEnds(s: string)
    ensures NormalizeOutput(Some(s)) == Trim(UnifyLineEnds(s))
    ensures NormalizeOutput(Some(s)) == UnifyLineEnds(Trim(s))
  {
    TrimThenUnify(s);
  }

  /** A line of text: neither line-ending character occurs in it. */
  predicate IsLine(s: string)
  {
    forall k :: 0 <= k < |s| ==> s[k] != '\r' && s[k] != '\n'
  }

  predicate AreLines(lines: seq<string>)
  {
    forall k :: 0 <= k < |lines| ==> IsLine(lines[k])
  }

  /** The lines written one after another with `sep` between them. */
  function Join(lines: seq<string>, sep: string): string
    decreases |lines|
  {
    if |lines| == 0 then ""
    else if |lines| == 1 then lines[0]
    else lines[0] + sep + Join(lines[1..], sep)
  }

  /** Each line-ending convention, on its own, becomes "\n". */
  lemma UnifySeparators()
    ensures UnifyLineEnds("\r\n") == "\n"
    ensures UnifyLineEnds("\r") == "\n"
    ensures UnifyLineEnds("\n") == "\n"
  {
    assert "\r\n"[2..] == "";
    assert ReplaceCrLf("\r\n") == "\n";
    assert "\r"[1..] == "";
    assert ReplaceCrLf("\r") == "\r";
    assert "\n"[1..] == "";
    assert ReplaceCrLf("\n") == "\n";
  }

  /** Lines joined by a separator that does not start with '\n' do not start
      with '\n' either. */
  lemma JoinStart(lines: seq<string>, sep: string)
    requires AreLines(lines)
    requires |sep| > 0 && sep[0] != '\n'
    ensures |Join(lines, sep)| > 0 ==> Join(lines, sep)[0] != '\n'
  {
    if |lines| >= 2 && |lines[0]| == 0 {
      assert Join(lines, sep)[0] == sep[0];
    }
  }

  /** Whichever line-ending convention joins them, lines come out of the
      replacements joined by "\n". */
  lemma {:induction false} UnifyJoin(lines: seq<string>, sep: string)
    requires AreLines(lines)
    requires sep == "\r\n" || sep == "\r" || sep == "\n"
    ensures UnifyLineEnds(Join(lines, sep)) == Join(lines, "\n")
    decreases |lines|
  {
    if |lines| == 1 {
      ReplaceCrLfWithoutCr(lines[0]);
      assert ReplaceCr(lines[0]) == lines[0];
    } else if |lines| >= 2 {
      var rest := Join(lines[1..], sep);
      assert AreLines(lines[1..]);
      UnifyJoin(lines[1..], sep);
      if sep != "\n" {
        JoinStart(lines[1..], sep);
      }
      UnifySeparators();
      UnifyLineEndsAppend(lines[0], sep);
      assert (lines[0] + sep)[|lines[0] + sep| - 1] == sep[|sep| - 1];
      UnifyLineEndsAppend(lines[0] + sep, rest);
      ReplaceCrLfWithoutCr(lines[0]);
      assert ReplaceCr(lines[0]) == lines[0];
    }
  }

  /** The three line-ending conventions normalise alike: lines joined by
      "\r\n" (Windows) or by a lone "\r" (classic Mac OS) give exactly what
      the same lines joined by "\n" give, namely that text trimmed. */
  lemma LineEndingsNormalizeAlike(lines: seq<string>, sep: string)
    requires AreLines(lines)
    requires sep == "\r\n" || sep == "\r"
    ensures NormalizeOutput(Some(Join(lines, sep))) == NormalizeOutput(Some(Join(lines, "\n")))
    ensures NormalizeOutput(Some(Join(lines, sep))) == Trim(Join(lines, "\n"))
  {
    UnifyJoin(lines, sep);
    UnifyJoin(lines, "\n");
    NormalizeUnifiesLineEnds(Join(lines, sep));
    NormalizeUnifiesLineEnds(Join(lines, "\n"));
  }

  /** The normal texts are exactly the fixed points of normalisation. */
  lemma NormalizeFixedPoint(s: string)
    ensures NormalizeOutput(Some(s)) == s <==> IsNormal(s)
  {
    if IsNormal(s) {
      TrimOfTrimmed(s);
      ReplaceCrLfWithoutCr(s);
      assert ReplaceCr(s) == s;
    }
  }

  /** Normalising twice is normalising once. */
  lemma NormalizeIdempotent(s: Option<string>)
    ensures NormalizeOutput(Some(NormalizeOutput(s))) == NormalizeOutput(s)
  {
    NormalizeFixedPoint(NormalizeOutput(s));
  }

  /** Outer whitespace and the line-ending convention do not matter: a text
      and its trimmed form normalise alike. */
  lemma NormalizeIgnoresOuterWhitespace(s: string)
    ensures NormalizeOutput(Some(Trim(s))) == NormalizeOutput(Some(s))
  {
    TrimIdempotent(s);
  }
}
