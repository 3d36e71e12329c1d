/** The response normaliser of the classify endpoint: it turns the language
    model's reply into the text handed to `JSON.parse` by removing a Markdown
    code fence and then cutting out a bracketed payload. */
module Normalizer {
  import opened JsText

  const Fence := "```"
  const Tag := "json"
  const FenceWithTag := "```json"

  /** `s.replace(/^```(?:json)?\s*\/, '')`: an opening fence, the tag "json" when
      it follows the fence directly, and the white space after them are removed.
      The optional group is greedy, so a "json" right after the fence is always
      taken. */
  function StripOpenFence(s: string): (r: string)
    ensures |r| <= |s| && r == s[|s| - |r|..]
    ensures !StartsWith(s, Fence) ==> r == s
    ensures StartsWith(s, Fence) ==> r == [] || !IsSpace(r[0])
    ensures StartsWith(s, FenceWithTag) ==> |r| <= |s| - 7 && AllSpace(s[7..|s| - |r|])
    ensures StartsWith(s, Fence) && !StartsWith(s, FenceWithTag) ==> |r| <= |s| - 3 && AllSpace(s[3..|s| - |r|])
  {
    if StartsWith(s, FenceWithTag) then
      var r := TrimStart(s[7..]);
      assert s[7..][..|s| - 7 - |r|] == s[7..|s| - |r|];
      r
    else if StartsWith(s, Fence) then
      var r := TrimStart(s[3..]);
      assert s[3..][..|s| - 3 - |r|] == s[3..|s| - |r|];
      r
    else s
  }

  /** `s.replace(/\s*```$/, '')`: a closing fence at the very end and the white
      space before it are removed. The leftmost match starts where the run of
      white space in front of the final fence begins. */
  function StripCloseFence(s: string): (r: string)
    ensures |r| <= |s| && r == s[..|r|]
    ensures !EndsWith(s, Fence) ==> r == s
    ensures EndsWith(s, Fence) ==> |r| <= |s| - 3 && AllSpace(s[|r|..|s| - 3])
    ensures EndsWith(s, Fence) ==> r == [] || !IsSpace(r[|r| - 1])
  {
    if EndsWith(s, Fence) then TrimEnd(s[..|s| - 3]) else s
  }

  /** The fence removal of the cleaning step, followed by `trim()`. */
  function Defence(raw: string): (t: string)
    ensures Trimmed(t)
    ensures Infix(t, raw)
  {
    var a := StripOpenFence(raw);
    var b := StripCloseFence(a);
    var t := Trim(b);
    StrippedInfix(raw, a, b);
    TrimInfix(b);
    InfixTransitive(t, b, raw);
    t
  }

  lemma StrippedInfix(raw: string, a: string, b: string)
    requires |a| <= |raw| && |b| <= |a| && a == raw[|raw| - |a|..] && b == a[..|b|]
    ensures Infix(b, raw)
  {
    assert raw[|raw| - |a|..|raw| - |a| + |b|] == b;
  }

  /** `c` first occurs in `t` at position `i`. */
  ghost predicate FirstAt(t: string, c: char, i: int) {
    0 <= i < |t| && t[i] == c && forall k :: 0 <= k < i ==> t[k] != c
  }

  /** `c` last occurs in `t` at position `j`. */
  ghost predicate LastAt(t: string, c: char, j: int) {
    0 <= j < |t| && t[j] == c && forall k :: j < k < |t| ==> t[k] != c
  }

  /** Some `open` in `t` lies before some `close`: exactly when the last `close`
      follows the first `open`. */
  ghost predicate Encloses(t: string, open: char, close: char) {
    exists i, j :: 0 <= i < j < |t| && t[i] == open && t[j] == close
  }

  lemma CutIsFirstToLast(t: string, open: char, close: char)
    requires IndexOf(t, open) != -1 && LastIndexOf(t, close) > IndexOf(t, open)
    ensures forall i, j :: FirstAt(t, open, i) && LastAt(t, close, j) && i < j ==>
              t[IndexOf(t, open)..LastIndexOf(t, close) + 1] == t[i..j + 1]
  {
    forall i, j | FirstAt(t, open, i) && LastAt(t, close, j) && i < j
      ensures i == IndexOf(t, open) && j == LastIndexOf(t, close)
    {
      FirstAtIsIndexOf(t, open, i);
      LastAtIsLastIndexOf(t, close, j);
    }
  }

  lemma EnclosesAt(t: string, open: char, close: char, i: int, j: int)
    requires 0 <= i < j < |t| && t[i] == open && t[j] == close
    ensures Encloses(t, open, close)
  {
  }

  lemma FirstAtIsIndexOf(t: string, c: char, i: int)
    requires FirstAt(t, c, i)
    ensures IndexOf(t, c) == i
  {
  }

  lemma LastAtIsLastIndexOf(t: string, c: char, j: int)
    requires LastAt(t, c, j)
    ensures LastIndexOf(t, c) == j
  {
  }

  lemma EnclosesByIndices(t: string, open: char, close: char)
    ensures Encloses(t, open, close) <==> IndexOf(t, open) >= 0 && LastIndexOf(t, close) > IndexOf(t, open)
  {
  }

  /** The payload cut of the cleaning step: the first '[' through the last ']';
      only when the text holds no '[' at all, the first '{' through the last '}';
      and the text itself when the chosen pair is missing or out of order. */
  function Extract(t: string): (r: string)
    ensures ExtractContract(t, r)
  {
    var f := IndexOf(t, '[');
    var first := if f == -1 then IndexOf(t, '{') else f;
    var last := if f == -1 then LastIndexOf(t, '}') else LastIndexOf(t, ']');
    var r := if first != -1 && last != -1 && last > first then t[first..last + 1] else t;
    ExtractCases(t, r);
    r
  }

  /** What `Extract` promises: the cut described by first and last
      positions rather than by `indexOf`/`lastIndexOf` calls. */
  ghost predicate ExtractContract(t: string, r: string) {
    && (forall i, j :: FirstAt(t, '[', i) && LastAt(t, ']', j) && i < j ==> r == t[i..j + 1])
    && ('[' !in t ==>
          forall i, j :: FirstAt(t, '{', i) && LastAt(t, '}', j) && i < j ==> r == t[i..j + 1])
    && (!Encloses(t, '[', ']') && ('[' in t || !Encloses(t, '{', '}')) ==> r == t)
    && (Encloses(t, '[', ']') ==> |r| >= 2 && r[0] == '[' && r[|r| - 1] == ']')
    && ('[' !in t && Encloses(t, '{', '}') ==> |r| >= 2 && r[0] == '{' && r[|r| - 1] == '}' && '[' !in r)
    && Infix(r, t)
  }

  lemma ExtractCases(t: string, r: string)
    requires var f := IndexOf(t, '[');
      var first := if f == -1 then IndexOf(t, '{') else f;
      var last := if f == -1 then LastIndexOf(t, '}') else LastIndexOf(t, ']');
      r == if first != -1 && last != -1 && last > first then t[first..last + 1] else t
    ensures ExtractContract(t, r)
  {
    var f := IndexOf(t, '[');
    if f != -1 {
      if LastIndexOf(t, ']') > f {
        SquareCut(t, r);
      } else {
        NoCut(t, r);
      }
    } else if IndexOf(t, '{') != -1 && LastIndexOf(t, '}') > IndexOf(t, '{') {
      BraceCut(t, r);
    } else {
      NoCut(t, r);
    }
  }

  lemma SquareCut(t: string, r: string)
    requires IndexOf(t, '[') != -1 && LastIndexOf(t, ']') > IndexOf(t, '[')
    requires r == t[IndexOf(t, '[')..LastIndexOf(t, ']') + 1]
    ensures ExtractContract(t, r)
  {
    var f, l := IndexOf(t, '['), LastIndexOf(t, ']');
    EnclosesAt(t, '[', ']', f, l);
    CutIsFirstToLast(t, '[', ']');
    CutInfix(t, f, l);
    assert t[f] == '[' && '[' in t;
  }

  lemma BraceCut(t: string, r: string)
    requires IndexOf(t, '[') == -1
    requires IndexOf(t, '{') != -1 && LastIndexOf(t, '}') > IndexOf(t, '{')
    requires r == t[IndexOf(t, '{')..LastIndexOf(t, '}') + 1]
    ensures ExtractContract(t, r)
  {
    var f, l := IndexOf(t, '{'), LastIndexOf(t, '}');
    assert '[' !in t;
    NoPair(t, '[', ']');
    EnclosesAt(t, '{', '}', f, l);
    CutIsFirstToLast(t, '{', '}');
    CutInfix(t, f, l);
    CutAvoids(t, f, l, '[');
    assert r[0] == t[f] && r[|r| - 1] == t[l];
  }

  lemma NoCut(t: string, r: string)
    requires !(IndexOf(t, '[') != -1 && LastIndexOf(t, ']') > IndexOf(t, '['))
    requires IndexOf(t, '[') == -1 ==> !(IndexOf(t, '{') != -1 && LastIndexOf(t, '}') > IndexOf(t, '{'))
    requires r == t
    ensures ExtractContract(t, r)
  {
    NoPair(t, '[', ']');
    if IndexOf(t, '[') == -1 {
      NoPair(t, '{', '}');
    }
  }

  lemma CutInfix(t: string, f: int, l: int)
    requires 0 <= f < l < |t|
    ensures Infix(t[f..l + 1], t)
  {
    InfixOfSlice(t, f, l + 1);
  }

  lemma CutAvoids(t: string, f: int, l: int, c: char)
    requires 0 <= f < l < |t| && c !in t
    ensures c !in t[f..l + 1]
  {
    var r := t[f..l + 1];
    forall k | 0 <= k < |r|
      ensures r[k] != c
    {
      assert r[k] == t[f + k];
    }
  }

  lemma NoPair(t: string, open: char, close: char)
    requires !(IndexOf(t, open) != -1 && LastIndexOf(t, close) > IndexOf(t, open))
    ensures !Encloses(t, open, close)
    ensures forall i, j :: FirstAt(t, open, i) && LastAt(t, close, j) ==> j <= i
    ensures Infix(t, t)
  {
    EnclosesByIndices(t, open, close);
    InfixReflexive(t);
  }

  /** The whole cleaning step applied to the trimmed model reply. */
  function Clean(raw: string): (r: string)
    ensures Infix(r, raw)
    ensures |r| <= |raw|
  {
    var t := Defence(raw);
    var r := Extract(t);
    InfixTransitive(r, t, raw);
    r
  }

  /** A bracketed payload: an array text, or an object text that holds no '['. */
  predicate Bracketed(p: string) {
    && |p| >= 2
    && ((p[0] == '[' && p[|p| - 1] == ']') || (p[0] == '{' && p[|p| - 1] == '}' && '[' !in p))
  }

  /** Text without a fence or white space at either end passes de-fencing unchanged. */
  lemma UnfencedKept(p: string)
    requires |p| >= 1 && p[0] != '`' && p[|p| - 1] != '`' && Trimmed(p)
    ensures Defence(p) == p
  {
    assert !StartsWith(p, Fence) by {
      if |p| >= |Fence| {
        assert p[..|Fence|][0] == p[0];
      }
    }
    assert !EndsWith(p, Fence) by {
      if |p| >= |Fence| {
        assert p[|p| - 3..][2] == p[|p| - 1];
      }
    }
  }

  /** Cleaning leaves a bracketed payload exactly as it is. */
  lemma BracketedKept(p: string)
    requires Bracketed(p)
    ensures Defence(p) == p
    ensures Clean(p) == p
  {
    UnfencedKept(p);
    var r := Extract(p);
    if p[0] == '[' {
      assert FirstAt(p, '[', 0) && LastAt(p, ']', |p| - 1);
      assert p[0..|p|] == p;
    } else {
      assert FirstAt(p, '{', 0) && LastAt(p, '}', |p| - 1);
      assert p[0..|p|] == p;
    }
  }

  /** Cleaning is idempotent whenever it cut out a bracketed payload: an array
      when the de-fenced text encloses one, otherwise an object when it holds no '['. */
  lemma CleanIdempotentOnCuts(raw: string)
    requires var t := Defence(raw);
      Encloses(t, '[', ']') || ('[' !in t && Encloses(t, '{', '}'))
    ensures Clean(Clean(raw)) == Clean(raw)
  {
    BracketedKept(Clean(raw));
  }

  /** The fence the model tends to wrap its answer in: an opening fence with an
      optional "json" tag, white space, the payload, white space, a closing fence. */
  function Fenced(tag: string, w1: string, p: string, w2: string): string {
    Fence + tag + w1 + p + w2 + Fence
  }

  /** De-fencing recovers the payload of a fenced reply. The payload must not
      start or end with white space, and when nothing separates a bare fence from
      it, it must not itself begin with "json", which the tag pattern would take.
      Any other payload, one beginning with "j" or "js" included, is recovered. */
  lemma DefenceOfFenced(tag: string, w1: string, p: string, w2: string)
    requires tag == "" || tag == "json"
    requires AllSpace(w1) && AllSpace(w2) && Trimmed(p)
    requires tag == "" && w1 == [] ==> !StartsWith(p, Tag)
    ensures Defence(Fenced(tag, w1, p, w2)) == p
  {
    OpenFenceOfFenced(tag, w1, p, w2);
    CloseFenceOfFenced(p, w2);
  }

  /** Opening-fence removal of a fenced reply leaves the payload and what follows it. */
  lemma OpenFenceOfFenced(tag: string, w1: string, p: string, w2: string)
    requires tag == "" || tag == "json"
    requires AllSpace(w1) && AllSpace(w2) && Trimmed(p)
    requires tag == "" && w1 == [] ==> !StartsWith(p, Tag)
    ensures StripOpenFence(Fenced(tag, w1, p, w2)) == if p == [] then Fence else p + w2 + Fence
  {
    var body := w1 + p + w2 + Fence;
    assert Fenced(tag, w1, p, w2) == Fence + tag + body;
    if tag == "json" {
      assert Fence + tag == FenceWithTag;
      StripTagged(body);
    } else {
      assert Fence + tag == Fence;
      UntaggedBody(w1, p, w2);
      StripBare(body);
    }
    WhiteSpaceThenText(w1, p, w2);
  }

  lemma StripTagged(body: string)
    ensures StripOpenFence(FenceWithTag + body) == TrimStart(body)
  {
    var s := FenceWithTag + body;
    assert s[..7] == FenceWithTag && s[7..] == body;
  }

  lemma StripBare(body: string)
    requires !StartsWith(body, Tag)
    ensures StripOpenFence(Fence + body) == TrimStart(body)
  {
    var s := Fence + body;
    assert s[..3] == Fence && s[3..] == body;
    assert !StartsWith(s, FenceWithTag) by {
      if |s| >= |FenceWithTag| {
        assert s[..|FenceWithTag|][3..] == body[..4];
      }
    }
  }

  /** What follows a bare fence does not begin with the tag: it begins with
      white space, or with a payload that does not begin with the tag, or with
      the closing fence right after a shorter payload and its white space. */
  lemma UntaggedBody(w1: string, p: string, w2: string)
    requires AllSpace(w1) && AllSpace(w2) && Trimmed(p)
    requires w1 == [] ==> !StartsWith(p, Tag)
    ensures !StartsWith(w1 + p + w2 + Fence, Tag)
  {
    var body := w1 + p + w2 + Fence;
    if |body| >= 4 {
      if w1 != [] {
        assert body[..4][0] == w1[0];
      } else if |p| >= 4 {
        assert body[..4] == p[..4];
      } else if p != [] {
        var k := |p|;
        assert body[..4][k] == if w2 != [] then w2[0] else '`';
      } else {
        assert body[..4][0] == if w2 != [] then w2[0] else '`';
      }
    }
  }

  lemma WhiteSpaceThenText(w1: string, p: string, w2: string)
    requires AllSpace(w1) && AllSpace(w2) && Trimmed(p)
    ensures TrimStart(w1 + p + w2 + Fence) == if p == [] then Fence else p + w2 + Fence
  {
    if p == [] {
      assert w1 + p + w2 + Fence == (w1 + w2) + Fence;
      assert AllSpace(w1 + w2) by {
        assert forall i :: 0 <= i < |w1 + w2| ==> (w1 + w2)[i] == if i < |w1| then w1[i] else w2[i - |w1|];
      }
      TrimStartAfterSpace(w1 + w2, Fence);
    } else {
      assert w1 + p + w2 + Fence == w1 + (p + w2 + Fence);
      TrimStartAfterSpace(w1, p + w2 + Fence);
    }
  }

  /** Closing-fence removal and trimming then leave the payload alone. */
  lemma CloseFenceOfFenced(p: string, w2: string)
    requires AllSpace(w2) && Trimmed(p)
    ensures var q := if p == [] then Fence else p + w2 + Fence;
      Trim(StripCloseFence(q)) == p
  {
    var q := if p == [] then Fence else p + w2 + Fence;
    assert EndsWith(q, Fence);
    if p == [] {
      assert q[..|q| - 3] == [];
    } else {
      assert q[..|q| - 3] == p + w2;
      TrimEndBeforeSpace(p, w2);
    }
  }

  /** A fenced array or object comes out of cleaning as exactly the enclosed payload. */
  lemma CleanOfFencedPayload(tag: string, w1: string, p: string, w2: string)
    requires tag == "" || tag == "json"
    requires AllSpace(w1) && AllSpace(w2) && Bracketed(p)
    ensures Clean(Fenced(tag, w1, p, w2)) == p
  {
    DefenceOfFenced(tag, w1, p, w2);
    BracketedKept(p);
  }

  /** Arrays take precedence over objects: an object text with an array inside
      is cut down to that inner array, so cleaning changes it. */
  lemma ArrayInsideObjectWins(p: string)
    requires |p| >= 2 && p[0] == '{' && p[|p| - 1] == '}' && Encloses(p, '[', ']')
    ensures var r := Clean(p); |r| >= 2 && r[0] == '[' && r[|r| - 1] == ']' && r != p
  {
    BracedTrimmed(p);
    UnfencedCleansToCut(p);
    ArrayCut(p);
    CutDiffers(p, Clean(p));
  }

  lemma CutDiffers(p: string, r: string)
    requires |p| >= 1 && p[0] == '{' && |r| >= 1 && r[0] == '['
    ensures r != p
  {
    assert r[0] != p[0];
  }

  lemma BracedTrimmed(p: string)
    requires |p| >= 2 && p[0] == '{' && p[|p| - 1] == '}'
    ensures Trimmed(p)
  {
  }

  /** Text that de-fencing keeps is handed to the payload cut as it is. */
  lemma UnfencedCleansToCut(p: string)
    requires |p| >= 1 && p[0] != '`' && p[|p| - 1] != '`' && Trimmed(p)
    ensures Clean(p) == Extract(p)
  {
    UnfencedKept(p);
  }

  lemma ArrayCut(t: string)
    requires Encloses(t, '[', ']')
    ensures var r := Extract(t); |r| >= 2 && r[0] == '[' && r[|r| - 1] == ']'
  {
    assert ExtractContract(t, Extract(t));
  }

  /** With a '[' present but no ']' after it there is no fallback to braces,
      even when the text is an object. */
  lemma UnclosedArrayKeepsText(p: string)
    requires |p| >= 2 && p[0] == '[' && p[|p| - 1] == '}' && ']' !in p
    ensures Clean(p) == p
  {
    UnfencedKept(p);
    assert !Encloses(p, '[', ']');
    assert ExtractContract(p, Extract(p));
  }

  /** A bare opening fence in front of trimmed text is dropped, unless the text
      begins with "json", which the tag pattern takes, or ends with a backtick,
      where the closing-fence pattern may reach into it. */
  lemma BareFenceDropped(x: string)
    requires |x| >= 1 && Trimmed(x) && !StartsWith(x, Tag) && x[|x| - 1] != '`'
    ensures Defence(Fence + x) == x
  {
    var s := Fence + x;
    assert s[..3] == Fence && s[3..] == x;
    assert !StartsWith(s, FenceWithTag) by {
      if |s| >= |FenceWithTag| {
        assert s[..|FenceWithTag|][3..] == x[..4];
      }
    }
    TrimStartAfterSpace([], x);
    assert [] + x == x;
    assert !EndsWith(x, Fence) by {
      if |x| >= |Fence| {
        assert x[|x| - 3..][2] == x[|x| - 1];
      }
    }
  }

  /** Text without brackets or braces is not cut. */
  lemma ExtractNoBrackets(t: string)
    requires '[' !in t && '{' !in t
    ensures Extract(t) == t
  {
    assert !Encloses(t, '[', ']') && !Encloses(t, '{', '}');
    assert ExtractContract(t, Extract(t));
  }

  /** When nothing is cut out, cleaning need not be idempotent: a doubled
      opening fence loses one fence per pass. */
  lemma CleanNotIdempotentWithoutCut(x: string)
    requires |x| >= 1 && Trimmed(x) && x[0] != '`' && !StartsWith(x, Tag) && x[|x| - 1] != '`'
    requires '[' !in x && '{' !in x
    ensures Clean(Fence + (Fence + x)) == Fence + x
    ensures Clean(Fence + x) == x
  {
    FencedStaysPlain(x);
    CleanOfBareFenced(x);
    CleanOfBareFenced(Fence + x);
  }

  lemma FencedStaysPlain(x: string)
    requires |x| >= 1 && Trimmed(x) && !StartsWith(x, Tag) && x[|x| - 1] != '`'
    requires '[' !in x && '{' !in x
    ensures var u := Fence + x;
      |u| >= 1 && Trimmed(u) && !StartsWith(u, Tag) && u[|u| - 1] != '`' && '[' !in u && '{' !in u
  {
    var u := Fence + x;
    assert u[0] == '`' && u[|u| - 1] == x[|x| - 1];
    assert u[..4][0] == '`';
  }

  lemma CleanOfBareFenced(x: string)
    requires |x| >= 1 && Trimmed(x) && !StartsWith(x, Tag) && x[|x| - 1] != '`'
    requires '[' !in x && '{' !in x
    ensures Clean(Fence + x) == x
  {
    BareFenceDropped(x);
    ExtractNoBrackets(x);
  }
}
