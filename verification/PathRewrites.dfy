/**
 Rewriting whole paths in a text: one path by another, many one after the other, and when the latter replaces each path
 of the original text once.
 */
module PathRewrites {
  import opened Basics

  // ---- Whole-path replacement ----

  /** Characters that continue a path; `alnum` is the alphanumeric test. */
  predicate Inside(alnum: char -> bool, c: char) {
    alnum(c) || c == '/' || c == '_' || c == '-'
  }

  /** `from` occurs in `text` at `i`. */
  predicate OccursAt(text: string, from: string, i: nat) {
    i + |from| <= |text| && text[i..i + |from|] == from
  }

  /** The occurrence of `n` characters at `i` is not part of a longer path. */
  predicate WholePath(alnum: char -> bool, text: string, i: nat, n: nat)
    requires i + n <= |text|
  {
    && (i > 0 ==> !Inside(alnum, text[i - 1]) && text[i - 1] != '.')
    && (i + n < |text| ==> !Inside(alnum, text[i + n]))
  }

  /** Left to right over the original text, deciding each occurrence by its neighbours there. */
  function Rewritten(alnum: char -> bool, text: string, from: string, to: string, i: nat): string
    requires from != "" && i <= |text|
    decreases |text| - i
  {
    if i == |text| then ""
    else if OccursAt(text, from, i) then
      (if WholePath(alnum, text, i, |from|) then to else from) + Rewritten(alnum, text, from, to, i + |from|)
    else [text[i]] + Rewritten(alnum, text, from, to, i + 1)
  }

  /** The first occurrence at or after `i`. */
  function FindFrom(text: string, from: string, i: nat): (r: Option<nat>)
    requires i <= |text|
    ensures r.Some? ==> i <= r.value && OccursAt(text, from, r.value)
    ensures r.Some? ==> forall k :: i <= k < r.value ==> !OccursAt(text, from, k)
    ensures r.None? ==> forall k :: i <= k <= |text| ==> !OccursAt(text, from, k)
    decreases |text| - i
  {
    if OccursAt(text, from, i) then Some(i) else if i == |text| then None else FindFrom(text, from, i + 1)
  }

  /** Text without an occurrence is copied. */
  lemma {:induction false} CopiedUpTo(alnum: char -> bool, text: string, from: string, to: string, i: nat, j: nat)
    requires from != "" && i <= j <= |text| && forall k :: i <= k < j ==> !OccursAt(text, from, k)
    ensures Rewritten(alnum, text, from, to, i) == text[i..j] + Rewritten(alnum, text, from, to, j)
    decreases j - i
  {
    if i == j {
      JoinNothing(Rewritten(alnum, text, from, to, j));
      assert text[i..j] == "";
    } else {
      CopiedUpTo(alnum, text, from, to, i + 1, j);
      SliceHead(text, i, j);
      Group2([text[i]], text[i + 1..j], Rewritten(alnum, text, from, to, j));
    }
  }

  lemma SliceHead<T>(s: seq<T>, i: nat, j: nat)
    requires i < j <= |s|
    ensures s[i..j] == [s[i]] + s[i + 1..j]
  {
  }

  function LastOf(s: string): Option<char> {
    if s == "" then None else Some(s[|s| - 1])
  }

  /** What the loop consults as the character before an occurrence: this piece, or else the output so far. */
  function Before(piece: string, out: string): Option<char> {
    if piece != "" then LastOf(piece) else LastOf(out)
  }

  predicate Blocks(alnum: char -> bool, before: Option<char>, after: Option<char>) {
    || (before.Some? && (Inside(alnum, before.value) || before.value == '.'))
    || (after.Some? && Inside(alnum, after.value))
  }

  /**
   The loop. `at` indexes the original text, of which the source keeps the remaining slice. It consults its own
   output, yet the result is the left-to-right scan of the original text.
   */
  method ReplacePath(alnum: char -> bool, text: string, from: string, to: string) returns (out: string)
    requires from != "" && from[0] == '/'
    ensures out == Rewritten(alnum, text, from, to, 0)
  {
    out := "";
    var at := 0;
    JoinNothing(Rewritten(alnum, text, from, to, 0));
    var found := FindFrom(text, from, at);
    while found.Some?
      invariant at <= |text| && found == FindFrom(text, from, at)
      invariant Reached(alnum, text, from, to, at, out)
      invariant at == 0 ==> out == ""
      invariant EndsAlike(text, at, out)
      decreases |text| - at
    {
      var i := found.value;
      var next := i + |from|;
      var before := Before(text[at..i], out);
      var after := if next < |text| then Some(text[next]) else None;
      var chosen := if Blocks(alnum, before, after) then from else to;
      DecidedByText(alnum, text, from, at, i, out);
      OneOccurrence(alnum, text, from, to, at, i, out, chosen);
      out := out + text[at..i] + chosen;
      at := next;
      found := FindFrom(text, from, at);
    }
    LastPiece(alnum, text, from, to, at, out);
    out := out + text[at..];
  }

  /** The output so far and the scan of the rest make up the scan of the whole text. */
  ghost predicate Reached(alnum: char -> bool, text: string, from: string, to: string, at: nat, out: string)
    requires from != "" && at <= |text|
  {
    Rewritten(alnum, text, from, to, 0) == out + Rewritten(alnum, text, from, to, at)
  }

  lemma LastPiece(alnum: char -> bool, text: string, from: string, to: string, at: nat, out: string)
    requires from != "" && at <= |text| && Reached(alnum, text, from, to, at, out)
    requires forall k :: at <= k < |text| ==> !OccursAt(text, from, k)
    ensures Rewritten(alnum, text, from, to, 0) == out + text[at..]
  {
    CopiedUpTo(alnum, text, from, to, at, |text|);
  }

  /** Copying up to an occurrence and then deciding it moves the scan past it. */
  lemma OneOccurrence(
    alnum: char -> bool, text: string, from: string, to: string, at: nat, i: nat, out: string, chosen: string)
    requires from != "" && from[0] == '/' && at <= i && OccursAt(text, from, i)
    requires Reached(alnum, text, from, to, at, out)
    requires forall k :: at <= k < i ==> !OccursAt(text, from, k)
    requires chosen == if WholePath(alnum, text, i, |from|) then to else from
    ensures Reached(alnum, text, from, to, i + |from|, out + text[at..i] + chosen)
    ensures EndsAlike(text, i + |from|, out + text[at..i] + chosen)
  {
    CopiedUpTo(alnum, text, from, to, at, i);
    Group4(out, text[at..i], chosen, Rewritten(alnum, text, from, to, i + |from|));
    LastOfOccurrence(text, from, i, out + text[at..i]);
  }

  /** Where a slash follows the last occurrence, that one was kept and the output still ends as the text does. */
  predicate EndsAlike(text: string, at: nat, out: string) {
    0 < at < |text| && text[at] == '/' ==> LastOf(out) == Some(text[at - 1])
  }

  lemma LastOfOccurrence(text: string, from: string, i: nat, out: string)
    requires from != "" && OccursAt(text, from, i)
    ensures LastOf(out + from) == Some(text[i + |from| - 1])
  {
    assert text[i + |from| - 1] == text[i..i + |from|][|from| - 1];
  }

  lemma DecidedByText(alnum: char -> bool, text: string, from: string, at: nat, i: nat, out: string)
    requires from != "" && from[0] == '/' && at <= i && OccursAt(text, from, i)
    requires at == 0 ==> out == ""
    requires EndsAlike(text, at, out)
    ensures Blocks(alnum, Before(text[at..i], out), if i + |from| < |text| then Some(text[i + |from|]) else None)
      <==> !WholePath(alnum, text, i, |from|)
  {
    assert text[i] == text[i..i + |from|][0];
  }

  // ---- Many paths, one rename after the other ----

  datatype Rename = Rename(given: string, canonical: string)

  predicate AllAbsolute(renamed: seq<Rename>) {
    forall i :: 0 <= i < |renamed| ==> Absolute(renamed[i].given)
  }

  /** The prompt after every rename, each given path being absolute. */
  function PromptFrom(alnum: char -> bool, text: string, renamed: seq<Rename>, i: nat): string
    requires i <= |renamed| && AllAbsolute(renamed)
    decreases |renamed| - i
  {
    if i == |renamed| then text
    else PromptFrom(alnum, Rewritten(alnum, text, renamed[i].given, renamed[i].canonical, 0), renamed, i + 1)
  }

  // ---- Many paths at once ----

  predicate Blocking(alnum: char -> bool, before: Option<char>) {
    before.Some? && (Inside(alnum, before.value) || before.value == '.')
  }

  /** `path` begins `text`, and no longer path there does. */
  predicate Begins(alnum: char -> bool, path: string, text: string) {
    path <= text && (|path| < |text| ==> !Inside(alnum, text[|path|]))
  }

  predicate Starts(alnum: char -> bool, before: Option<char>, text: string, path: string) {
    !Blocking(alnum, before) && Begins(alnum, path, text)
  }

  /** Every whole occurrence of one path replaced; `before` is the character before `text`. */
  function Replaced(alnum: char -> bool, before: Option<char>, text: string, r: Rename): string
    requires r.given != ""
    decreases |text|
  {
    if text == "" then ""
    else if Starts(alnum, before, text, r.given) then
      r.canonical + Replaced(alnum, LastOf(r.given), text[|r.given|..], r)
    else [text[0]] + Replaced(alnum, Some(text[0]), text[1..], r)
  }

  /** The first rename whose given path is whole here. */
  function Applicable(alnum: char -> bool, before: Option<char>, text: string, renamed: seq<Rename>)
    : (r: Option<Rename>)
    ensures r.Some? ==> r.value in renamed && Starts(alnum, before, text, r.value.given)
    ensures r.None? ==> forall x :: x in renamed ==> !Starts(alnum, before, text, x.given)
  {
    if renamed == [] then None
    else
      var earlier := Applicable(alnum, before, text, renamed[..|renamed| - 1]);
      if earlier.Some? then earlier
      else if Starts(alnum, before, text, renamed[|renamed| - 1].given) then Some(renamed[|renamed| - 1])
      else None
  }

  /** Every whole occurrence of a given path in the text replaced once, and nothing written looked at again. */
  function Substituted(alnum: char -> bool, before: Option<char>, text: string, renamed: seq<Rename>): string
    requires AllAbsolute(renamed)
    decreases |text|
  {
    if text == "" then ""
    else match Applicable(alnum, before, text, renamed)
      case Some(r) => r.canonical + Substituted(alnum, LastOf(r.given), text[|r.given|..], renamed)
      case None => [text[0]] + Substituted(alnum, Some(text[0]), text[1..], renamed)
  }

  /** Every slash but the first follows a character that blocks: no path starts in the midst of this one. */
  predicate Unbroken(alnum: char -> bool, path: string) {
    Absolute(path) && Tight(alnum, path)
  }

  predicate Tight(alnum: char -> bool, s: string) {
    forall i :: 0 < i < |s| && s[i] == '/' ==> Blocking(alnum, Some(s[i - 1]))
  }

  /** Neither path begins the other: a text written as one of them is not taken for the other. */
  predicate Clear(alnum: char -> bool, canonical: string, given: string) {
    !Begins(alnum, given, canonical) && !Begins(alnum, canonical, given)
  }

  predicate AllUnbroken(alnum: char -> bool, renamed: seq<Rename>) {
    forall r <- renamed :: Unbroken(alnum, r.given) && Unbroken(alnum, r.canonical)
  }

  /** No later given path can be found where an earlier canonical path was written. */
  predicate Orderly(alnum: char -> bool, renamed: seq<Rename>) {
    && AllUnbroken(alnum, renamed)
    && forall i, j :: 0 <= i < j < |renamed| ==> Clear(alnum, renamed[i].canonical, renamed[j].given)
  }

  // ---- The scan of one rename, as a replacement ----

  function CharBefore(text: string, i: nat): Option<char>
    requires i <= |text|
  {
    if i == 0 then None else Some(text[i - 1])
  }

  /** Without a start of the path, text is copied. */
  lemma {:induction false} ReplacedCopies(alnum: char -> bool, before: Option<char>, u: string, rest: string, r: Rename)
    requires Absolute(r.given) && Tight(alnum, u)
    requires u != "" ==> !Starts(alnum, before, u + rest, r.given)
    ensures Replaced(alnum, before, u + rest, r)
         == u + Replaced(alnum, if u == "" then before else LastOf(u), rest, r)
    decreases |u|
  {
    if u == "" {
      JoinNothing(rest);
    } else {
      TailJoin(u, rest);
      assert (u + rest)[0] == u[0];
      if |u| > 1 {
        assert u[1] == '/' ==> Blocking(alnum, Some(u[0]));
        assert (u[1..] + rest)[0] == u[1];
      }
      TightTail(alnum, u);
      ReplacedCopies(alnum, Some(u[0]), u[1..], rest, r);
      HeadTail(u);
      Group2([u[0]], u[1..], Replaced(alnum, LastOf(u), rest, r));
    }
  }

  lemma TightTail(alnum: char -> bool, u: string)
    requires u != "" && Tight(alnum, u)
    ensures Tight(alnum, u[1..])
  {
    forall i | 0 < i < |u[1..]| && u[1..][i] == '/' ensures Blocking(alnum, Some(u[1..][i - 1])) {
      assert u[i + 1] == '/';
    }
  }

  lemma StartsIff(alnum: char -> bool, text: string, from: string, i: nat)
    requires from != "" && i <= |text|
    ensures Starts(alnum, CharBefore(text, i), text[i..], from)
      <==> OccursAt(text, from, i) && WholePath(alnum, text, i, |from|)
  {
    if OccursAt(text, from, i) {
      assert text[i..][..|from|] == text[i..i + |from|];
      if i + |from| < |text| { assert text[i..][|from|] == text[i + |from|]; }
    }
    if from <= text[i..] { assert text[i..][..|from|] == text[i..i + |from|]; }
  }

  /** For a path that no path starts in the midst of, the scan finds every whole occurrence. */
  lemma {:induction false} RewrittenIsReplaced(alnum: char -> bool, text: string, r: Rename, i: nat)
    requires Unbroken(alnum, r.given) && i <= |text|
    ensures Rewritten(alnum, text, r.given, r.canonical, i) == Replaced(alnum, CharBefore(text, i), text[i..], r)
    decreases |text| - i
  {
    if i < |text| {
      var n := |r.given|;
      StartsIff(alnum, text, r.given, i);
      if OccursAt(text, r.given, i) {
        RewrittenIsReplaced(alnum, text, r, i + n);
        DropDrop(text, i, n);
        assert text[i + n - 1] == r.given[n - 1];
        if !WholePath(alnum, text, i, n) {
          CutAt(text, i, n);
          ReplacedCopies(alnum, CharBefore(text, i), r.given, text[i + n..], r);
        }
      } else {
        RewrittenIsReplaced(alnum, text, r, i + 1);
        DropDrop(text, i, 1);
      }
    }
  }

  lemma CutAt(text: string, i: nat, n: nat)
    requires i + n <= |text|
    ensures text[i..] == text[i..i + n] + text[i + n..]
  {
  }

  /**
   What may stand beside a path: before it, any character but a letter or digit, `/`, `_`, `-` or `.`; after it, any but
   a letter or digit, `/`, `_` or `-`. Otherwise the path is left as it is.
   */
  lemma Neighbours(alnum: char -> bool, r: Rename, c: char)
    requires Unbroken(alnum, r.given)
    ensures Rewritten(alnum, r.given, r.given, r.canonical, 0) == r.canonical
    ensures Rewritten(alnum, [c] + r.given, r.given, r.canonical, 0)
         == [c] + if alnum(c) || c in "/_-." then r.given else r.canonical
    ensures Rewritten(alnum, r.given + [c], r.given, r.canonical, 0)
         == (if alnum(c) || c in "/_-" then r.given else r.canonical) + [c]
  {
    AloneReplaced(alnum, None, r);
    BeforeReplaced(alnum, r, c);
    AfterReplaced(alnum, r, c);
    forall text: string ensures Rewritten(alnum, text, r.given, r.canonical, 0) == Replaced(alnum, None, text, r) {
      RewrittenIsReplaced(alnum, text, r, 0);
      assert text[0..] == text;
    }
  }

  lemma AloneReplaced(alnum: char -> bool, before: Option<char>, r: Rename)
    requires Unbroken(alnum, r.given)
    ensures Replaced(alnum, before, r.given, r) == if Blocking(alnum, before) then r.given else r.canonical
  {
    JoinNothing(r.given);
    JoinNothing(r.canonical);
    if Blocking(alnum, before) {
      ReplacedCopies(alnum, before, r.given, "", r);
    } else {
      assert r.given[|r.given|..] == "";
    }
  }

  lemma BeforeReplaced(alnum: char -> bool, r: Rename, c: char)
    requires Unbroken(alnum, r.given)
    ensures Replaced(alnum, None, [c] + r.given, r)
         == [c] + if alnum(c) || c in "/_-." then r.given else r.canonical
  {
    var text := [c] + r.given;
    AloneReplaced(alnum, Some(c), r);
    BlockingExactly(alnum, c);
    assert text[1..] == r.given && text[0] == c;
    NotOneFurther(alnum, r.given, c);
  }

  lemma BlockingExactly(alnum: char -> bool, c: char)
    ensures Blocking(alnum, Some(c)) <==> alnum(c) || c in "/_-."
    ensures Inside(alnum, c) <==> alnum(c) || c in "/_-"
  {
  }

  lemma NotOneFurther(alnum: char -> bool, path: string, c: char)
    requires Absolute(path)
    ensures !Begins(alnum, path, [c] + path)
  {
    if path <= [c] + path { AllSlashes(path, c, |path| - 1); }
  }

  /** A path that begins with a slash and is repeated one place further is all slashes. */
  lemma {:induction false} AllSlashes(path: string, c: char, i: nat)
    requires Absolute(path) && path <= [c] + path && i < |path|
    ensures path[i] == '/' && ([c] + path)[i + 1] == '/'
    decreases i
  {
    if i > 0 {
      AllSlashes(path, c, i - 1);
      assert path[i] == ([c] + path)[i];
    }
  }

  lemma AfterReplaced(alnum: char -> bool, r: Rename, c: char)
    requires Unbroken(alnum, r.given)
    ensures Replaced(alnum, None, r.given + [c], r)
         == (if alnum(c) || c in "/_-" then r.given else r.canonical) + [c]
  {
    var text := r.given + [c];
    BlockingExactly(alnum, c);
    assert text[|r.given|..] == [c] && text[|r.given|] == c && [c][1..] == "";
    JoinNothing([c]);
    assert Replaced(alnum, LastOf(r.given), [c], r) == [c] by {
      if Starts(alnum, LastOf(r.given), [c], r.given) { OneElement(r.given); }
    }
    if Inside(alnum, c) { ReplacedCopies(alnum, None, r.given, [c], r); }
  }

  // ---- One more rename after a substitution ----

  lemma SameHead(alnum: char -> bool, before: Option<char>, text: string, renamed: seq<Rename>)
    requires AllAbsolute(renamed) && AllUnbroken(alnum, renamed) && text != ""
    ensures Substituted(alnum, before, text, renamed) != ""
    ensures Substituted(alnum, before, text, renamed)[0] == text[0]
  {
  }

  lemma PrefixTail<T>(u: seq<T>, t: seq<T>)
    requires u != [] && u <= t
    ensures t != [] && t[0] == u[0] && u[1..] <= t[1..]
  {
  }

  lemma PrefixJoin<T>(u: seq<T>, t: seq<T>)
    requires u != [] && t != [] && u[0] == t[0] && u[1..] <= t[1..]
    ensures u <= t
  {
    HeadTail(u);
    HeadTail(t);
  }

  lemma TightNext(alnum: char -> bool, before: char, u: string)
    requires u != "" && Tight(alnum, [before] + u)
    ensures u[0] == '/' ==> Blocking(alnum, Some(before))
    ensures Tight(alnum, [u[0]] + u[1..])
  {
    var s := [before] + u;
    assert s[1] == u[0] && s[1 - 1] == before && s[1..] == u;
    TightTail(alnum, s);
    HeadTail(u);
  }

  /** The next character is copied, on whichever side the text was seen. */
  lemma CopiesNext(alnum: char -> bool, before: char, text: string, renamed: seq<Rename>, u: string)
    requires AllAbsolute(renamed) && AllUnbroken(alnum, renamed) && Tight(alnum, [before] + u) && u != ""
    requires u <= text || u <= Substituted(alnum, Some(before), text, renamed)
    ensures text != "" && text[0] == u[0]
    ensures var rest := Substituted(alnum, Some(u[0]), text[1..], renamed);
      && Substituted(alnum, Some(before), text, renamed) == [u[0]] + rest
      && (u[1..] <= text[1..] || u[1..] <= rest)
  {
    TightNext(alnum, before, u);
    var all := Substituted(alnum, Some(before), text, renamed);
    if u <= text { PrefixTail(u, text); } else { PrefixTail(u, all); }
    SameHead(alnum, Some(before), text, renamed);
    assert Applicable(alnum, Some(before), text, renamed).None?;
    assert all[1..] == Substituted(alnum, Some(u[0]), text[1..], renamed);
  }

  /** Text in which no path starts, whether seen before or after the substitution, is the same on both sides. */
  lemma {:induction false} SubstitutedCopies(
    alnum: char -> bool, before: char, text: string, renamed: seq<Rename>, u: string)
    requires AllAbsolute(renamed) && AllUnbroken(alnum, renamed) && Tight(alnum, [before] + u)
    requires u <= text || u <= Substituted(alnum, Some(before), text, renamed)
    ensures u <= text
    ensures Substituted(alnum, Some(before), text, renamed)
         == u + Substituted(alnum, LastOf([before] + u), text[|u|..], renamed)
    decreases |u|
  {
    if u == "" {
      JoinNothing(Substituted(alnum, Some(before), text, renamed));
      assert text[0..] == text;
    } else {
      CopiesNext(alnum, before, text, renamed, u);
      TightNext(alnum, before, u);
      SubstitutedCopies(alnum, u[0], text[1..], renamed, u[1..]);
      PrefixJoin(u, text);
      DropDrop(text, 1, |u| - 1);
      HeadTail(u);
      Group2([u[0]], u[1..], Substituted(alnum, LastOf(u), text[|u|..], renamed));
    }
  }

  /** A path that no rename replaces is copied, on whichever side it was seen. */
  lemma GivenCopied(alnum: char -> bool, before: Option<char>, text: string, renamed: seq<Rename>, given: string)
    requires AllAbsolute(renamed) && AllUnbroken(alnum, renamed) && Unbroken(alnum, given) && text != ""
    requires Applicable(alnum, before, text, renamed).None?
    requires given <= text || given <= Substituted(alnum, before, text, renamed)
    ensures given <= text
    ensures Substituted(alnum, before, text, renamed)
         == given + Substituted(alnum, LastOf(given), text[|given|..], renamed)
  {
    var all, rest := Substituted(alnum, before, text, renamed), Substituted(alnum, Some(text[0]), text[1..], renamed);
    if given <= text { PrefixTail(given, text); } else { PrefixTail(given, all); }
    assert all[1..] == rest;
    HeadTail(given);
    SubstitutedCopies(alnum, text[0], text[1..], renamed, given[1..]);
    PrefixJoin(given, text);
    DropDrop(text, 1, |given| - 1);
    Group2([given[0]], given[1..], Substituted(alnum, LastOf(given), text[|given|..], renamed));
  }

  /** A further path is whole here after the substitution exactly if it was before. */
  lemma BeginsAlike(alnum: char -> bool, before: Option<char>, text: string, renamed: seq<Rename>, given: string)
    requires AllAbsolute(renamed) && AllUnbroken(alnum, renamed) && Unbroken(alnum, given) && text != ""
    requires Applicable(alnum, before, text, renamed).None?
    ensures Begins(alnum, given, text) <==> Begins(alnum, given, Substituted(alnum, before, text, renamed))
  {
    var all := Substituted(alnum, before, text, renamed);
    if given <= text || given <= all {
      GivenCopied(alnum, before, text, renamed, given);
      var rest := text[|given|..];
      if rest != "" {
        SameHead(alnum, LastOf(given), rest, renamed);
        assert all[|given|] == Substituted(alnum, LastOf(given), rest, renamed)[0];
        assert text[|given|] == rest[0];
      }
    }
  }

  lemma NotTakenFor(alnum: char -> bool, canonical: string, rest: string, given: string)
    requires Clear(alnum, canonical, given) && (rest != "" ==> !Inside(alnum, rest[0]))
    ensures !Begins(alnum, given, canonical + rest)
  {
  }

  /** What an earlier rename wrote is not changed. */
  lemma WrittenStays(alnum: char -> bool, before: Option<char>, canonical: string, rest: string, r: Rename)
    requires Unbroken(alnum, canonical) && Unbroken(alnum, r.given) && Clear(alnum, canonical, r.given)
    requires rest != "" ==> !Inside(alnum, rest[0])
    ensures Replaced(alnum, before, canonical + rest, r) == canonical + Replaced(alnum, LastOf(canonical), rest, r)
  {
    NotTakenFor(alnum, canonical, rest, r.given);
    ReplacedCopies(alnum, before, canonical, rest, r);
  }

  lemma ApplicablePush(alnum: char -> bool, before: Option<char>, text: string, renamed: seq<Rename>, r: Rename)
    ensures Applicable(alnum, before, text, renamed + [r]) ==
      if Applicable(alnum, before, text, renamed).Some? then Applicable(alnum, before, text, renamed)
      else if Starts(alnum, before, text, r.given) then Some(r)
      else None
  {
    assert (renamed + [r])[..|renamed|] == renamed;
  }

  ghost predicate AllClear(alnum: char -> bool, renamed: seq<Rename>, given: string) {
    forall x <- renamed :: Clear(alnum, x.canonical, given)
  }

  /** Replacing one more path after a substitution is substituting it along with the others. */
  lemma {:induction false} OneMore(
    alnum: char -> bool, before: Option<char>, now: Option<char>, text: string, renamed: seq<Rename>, r: Rename)
    requires AllAbsolute(renamed) && AllUnbroken(alnum, renamed) && Unbroken(alnum, r.given)
    requires AllClear(alnum, renamed, r.given) && (now == before || text == "" || text[0] != '/')
    ensures AllAbsolute(renamed + [r])
    ensures Replaced(alnum, now, Substituted(alnum, before, text, renamed), r)
         == Substituted(alnum, before, text, renamed + [r])
    decreases |text|
  {
    if text != "" {
      ApplicablePush(alnum, before, text, renamed, r);
      match Applicable(alnum, before, text, renamed)
      case Some(x) =>
        var rest := text[|x.given|..];
        var after := Substituted(alnum, LastOf(x.given), rest, renamed);
        if rest != "" {
          assert rest[0] == text[|x.given|];
          SameHead(alnum, LastOf(x.given), rest, renamed);
        }
        WrittenStays(alnum, now, x.canonical, after, r);
        OneMore(alnum, LastOf(x.given), LastOf(x.canonical), rest, renamed, r);
      case None =>
        BeginsAlike(alnum, before, text, renamed, r.given);
        OneMoreHere(alnum, before, now, text, renamed, r);
    }
  }

  /** The step where no earlier rename applies. */
  lemma {:induction false} OneMoreHere(
    alnum: char -> bool, before: Option<char>, now: Option<char>, text: string, renamed: seq<Rename>, r: Rename)
    requires AllAbsolute(renamed) && AllUnbroken(alnum, renamed) && Unbroken(alnum, r.given)
    requires AllClear(alnum, renamed, r.given) && text != "" && (now == before || text[0] != '/')
    requires Applicable(alnum, before, text, renamed).None?
    requires Begins(alnum, r.given, text) <==> Begins(alnum, r.given, Substituted(alnum, before, text, renamed))
    ensures AllAbsolute(renamed + [r])
    ensures Replaced(alnum, now, Substituted(alnum, before, text, renamed), r)
         == Substituted(alnum, before, text, renamed + [r])
    decreases |text|, 0
  {
    var all := Substituted(alnum, before, text, renamed);
    ApplicablePush(alnum, before, text, renamed, r);
    if Starts(alnum, before, text, r.given) {
      GivenCopied(alnum, before, text, renamed, r.given);
      assert all[|r.given|..] == Substituted(alnum, LastOf(r.given), text[|r.given|..], renamed);
      OneMore(alnum, LastOf(r.given), LastOf(r.given), text[|r.given|..], renamed, r);
    } else {
      var rest := Substituted(alnum, Some(text[0]), text[1..], renamed);
      assert all == [text[0]] + rest && all[1..] == rest;
      OneMore(alnum, Some(text[0]), Some(text[0]), text[1..], renamed, r);
    }
  }

  // ---- One rename after the other, and all at once ----

  lemma {:induction false} SubstitutedNone(alnum: char -> bool, before: Option<char>, text: string)
    ensures Substituted(alnum, before, text, []) == text
    decreases |text|
  {
    if text != "" {
      SubstitutedNone(alnum, Some(text[0]), text[1..]);
      HeadTail(text);
    }
  }

  lemma OrderlyPrefix(alnum: char -> bool, renamed: seq<Rename>, i: nat)
    requires Orderly(alnum, renamed) && i < |renamed|
    ensures AllUnbroken(alnum, renamed[..i]) && AllAbsolute(renamed[..i])
    ensures Unbroken(alnum, renamed[i].given) && AllClear(alnum, renamed[..i], renamed[i].given)
    ensures renamed[..i + 1] == renamed[..i] + [renamed[i]]
  {
    assert renamed[i] in renamed;
    forall x <- renamed[..i] ensures Clear(alnum, x.canonical, renamed[i].given) && x in renamed {
      var k :| 0 <= k < i && renamed[k] == x;
    }
    forall k | 0 <= k < i ensures Absolute(renamed[..i][k].given) { assert renamed[k] in renamed; }
  }

  lemma {:induction false} PromptRest(alnum: char -> bool, text: string, renamed: seq<Rename>, i: nat)
    requires Orderly(alnum, renamed) && AllAbsolute(renamed) && i <= |renamed| && AllAbsolute(renamed[..i])
    ensures PromptFrom(alnum, Substituted(alnum, None, text, renamed[..i]), renamed, i)
         == Substituted(alnum, None, text, renamed)
    decreases |renamed| - i
  {
    if i == |renamed| {
      assert renamed[..i] == renamed;
    } else {
      var now := Substituted(alnum, None, text, renamed[..i]);
      OrderlyPrefix(alnum, renamed, i);
      RewrittenIsReplaced(alnum, now, renamed[i], 0);
      assert now[0..] == now;
      OneMore(alnum, None, None, text, renamed[..i], renamed[i]);
      PromptRest(alnum, text, renamed, i + 1);
    }
  }

  /** For orderly renames, one after the other is all at once: each given path of the text is replaced once. */
  lemma PromptAtOnce(alnum: char -> bool, text: string, renamed: seq<Rename>)
    requires Orderly(alnum, renamed)
    ensures AllAbsolute(renamed)
    ensures PromptFrom(alnum, text, renamed, 0) == Substituted(alnum, None, text, renamed)
  {
    forall i | 0 <= i < |renamed| ensures Absolute(renamed[i].given) { assert renamed[i] in renamed; }
    assert renamed[..0] == [];
    SubstitutedNone(alnum, None, text);
    PromptRest(alnum, text, renamed, 0);
  }

  // ---- When it is not ----

  lemma WholeFront(alnum: char -> bool, path: string, tail: string)
    requires tail != "" ==> !Inside(alnum, tail[0])
    ensures Begins(alnum, path, path + tail) && (path + tail)[|path|..] == tail
  {
    assert tail != "" ==> (path + tail)[|path|] == tail[0];
  }

  lemma FirstApplies(alnum: char -> bool, text: string, a: Rename, b: Rename)
    requires Starts(alnum, None, text, a.given)
    ensures Applicable(alnum, None, text, [a, b]) == Some(a)
  {
    ApplicablePush(alnum, None, text, [], a);
    ApplicablePush(alnum, None, text, [] + [a], b);
    assert [] + [a] + [b] == [a, b];
  }

  /** A whole path and text after it in which none starts: the path is replaced and the rest copied. */
  lemma ReplacedWhole(alnum: char -> bool, r: Rename, tail: string)
    requires Absolute(r.given) && Tight(alnum, tail) && (tail != "" ==> !Inside(alnum, tail[0]))
    ensures Replaced(alnum, None, r.given + tail, r) == r.canonical + tail
  {
    WholeFront(alnum, r.given, tail);
    ReplacedCopies(alnum, LastOf(r.given), tail, "", r);
    JoinNothing(tail);
  }

  lemma SubstitutedWhole(alnum: char -> bool, a: Rename, b: Rename, tail: string)
    requires AllUnbroken(alnum, [a, b]) && Tight(alnum, tail) && (tail != "" ==> !Inside(alnum, tail[0]))
    ensures AllAbsolute([a, b]) && Substituted(alnum, None, a.given + tail, [a, b]) == a.canonical + tail
  {
    var text, both, last := a.given + tail, [a, b], a.given[|a.given| - 1];
    assert a in both && b in both;
    WholeFront(alnum, a.given, tail);
    FirstApplies(alnum, text, a, b);
    TightAfter(alnum, last, tail);
    SubstitutedCopies(alnum, last, tail, both, tail);
    JoinNothing(tail);
  }

  lemma TightAfter(alnum: char -> bool, before: char, u: string)
    requires Tight(alnum, u) && (u != "" ==> u[0] != '/')
    ensures Tight(alnum, [before] + u)
  {
    var s := [before] + u;
    forall i | 0 < i < |s| && s[i] == '/' ensures Blocking(alnum, Some(s[i - 1])) {
      assert u[i - 1] == '/';
    }
  }

  lemma TightDrop(alnum: char -> bool, u: string, n: nat)
    requires Tight(alnum, u) && n <= |u|
    ensures Tight(alnum, u[n..])
  {
    forall i | 0 < i < |u[n..]| && u[n..][i] == '/' ensures Blocking(alnum, Some(u[n..][i - 1])) {
      assert u[n + i] == '/';
    }
  }

  /** A text on which two renames, the second finding what the first wrote, do not replace each path once. */
  lemma PairFails(alnum: char -> bool, a: Rename, b: Rename) returns (text: string)
    requires AllUnbroken(alnum, [a, b]) && AllAbsolute([a, b]) && b.given != b.canonical
    requires !Clear(alnum, a.canonical, b.given)
    ensures PromptFrom(alnum, text, [a, b], 0) != Substituted(alnum, None, text, [a, b])
  {
    assert a in [a, b] && b in [a, b];
    var tail, rest := "", "";
    if Begins(alnum, b.given, a.canonical) {
      rest := a.canonical[|b.given|..];
      TightDrop(alnum, a.canonical, |b.given|);
      assert a.canonical + tail == b.given + rest;
    } else {
      tail := b.given[|a.canonical|..];
      TightDrop(alnum, b.given, |a.canonical|);
      assert a.canonical + tail == b.given + rest;
    }
    text := a.given + tail;
    ReplacedWhole(alnum, a, tail);
    ReplacedWhole(alnum, b, rest);
    SubstitutedWhole(alnum, a, b, tail);
    TwoRenames(alnum, text, a, b);
    DifferentFronts(b.canonical, b.given, rest);
  }

  lemma DifferentFronts(x: string, y: string, rest: string)
    requires x != y
    ensures x + rest != y + rest
  {
    if |x| == |y| {
      var i :| 0 <= i < |x| && x[i] != y[i];
      assert (x + rest)[i] != (y + rest)[i];
    }
  }

  lemma TwoRenames(alnum: char -> bool, text: string, a: Rename, b: Rename)
    requires Unbroken(alnum, a.given) && Unbroken(alnum, b.given) && AllAbsolute([a, b])
    ensures PromptFrom(alnum, text, [a, b], 0) == Replaced(alnum, None, Replaced(alnum, None, text, a), b)
  {
    var once := Replaced(alnum, None, text, a);
    assert text[0..] == text && once[0..] == once;
    RewrittenIsReplaced(alnum, text, a, 0);
    RewrittenIsReplaced(alnum, once, b, 0);
    assert PromptFrom(alnum, once, [a, b], 1) == PromptFrom(alnum, Replaced(alnum, None, once, b), [a, b], 2);
  }

  /** Two renames replace each path of every text once if and only if the second cannot find what the first wrote. */
  lemma PairExact(alnum: char -> bool, a: Rename, b: Rename)
    requires AllUnbroken(alnum, [a, b]) && AllAbsolute([a, b]) && b.given != b.canonical
    ensures (forall text :: PromptFrom(alnum, text, [a, b], 0) == Substituted(alnum, None, text, [a, b]))
      <==> Clear(alnum, a.canonical, b.given)
  {
    if Clear(alnum, a.canonical, b.given) {
      forall text ensures PromptFrom(alnum, text, [a, b], 0) == Substituted(alnum, None, text, [a, b]) {
        PromptAtOnce(alnum, text, [a, b]);
      }
    } else {
      var text := PairFails(alnum, a, b);
    }
  }

  /** A given path that continues as `tail` in an earlier canonical path is replaced there all the same. */
  lemma Chained(alnum: char -> bool, a: Rename, b: Rename, tail: string)
    requires AllAbsolute([a, b]) && Unbroken(alnum, a.given) && Unbroken(alnum, b.given) && Tight(alnum, tail)
    requires a.canonical == b.given + tail && (tail != "" ==> !Inside(alnum, tail[0]))
    ensures PromptFrom(alnum, a.given, [a, b], 0) == b.canonical + tail
  {
    JoinNothing(a.given);
    JoinNothing(a.canonical);
    ReplacedWhole(alnum, a, "");
    ReplacedWhole(alnum, b, tail);
    TwoRenames(alnum, a.given, a, b);
  }

  /** With links `/l` to `/d.o` and `/d` to `/q`, the prompt `/l` becomes `/q.o`, which no list holds. */
  lemma ChainExample(alnum: char -> bool, a: Rename, b: Rename)
    requires !alnum('.') && a == Rename("/l", "/d.o") && b == Rename("/d", "/q")
    ensures AllAbsolute([a, b]) && PromptFrom(alnum, "/l", [a, b], 0) == "/q" + ".o"
  {
    assert a.canonical == b.given + ".o";
    Chained(alnum, a, b, ".o");
  }

  /** The loop over the renames. When they are orderly, every given path of the prompt is replaced once. */
  method RewritePrompt(alnum: char -> bool, prompt: string, renamed: seq<Rename>) returns (text: string)
    requires AllAbsolute(renamed)
    ensures text == PromptFrom(alnum, prompt, renamed, 0)
    ensures Orderly(alnum, renamed) ==> text == Substituted(alnum, None, prompt, renamed)
  {
    if Orderly(alnum, renamed) { PromptAtOnce(alnum, prompt, renamed); }
    text := prompt;
    var i := 0;
    while i < |renamed|
      invariant 0 <= i <= |renamed|
      invariant PromptFrom(alnum, prompt, renamed, 0) == PromptFrom(alnum, text, renamed, i)
    {
      text := ReplacePath(alnum, text, renamed[i].given, renamed[i].canonical);
      i := i + 1;
    }
  }
}
