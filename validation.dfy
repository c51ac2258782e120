/** The client-side validation gates: a name or URL that is empty once
    surrounding white space is trimmed is refused before any request is made. */
module Validation {
  import opened ExamRecords

  /** The characters a JavaScript `trim` removes: white space and line terminators. */
  predicate IsSpace(c: char) {
    c in {'\t', '\n', '\U{000B}', '\U{000C}', '\r', ' ', '\U{00A0}', '\U{1680}',
          '\U{2000}', '\U{2001}', '\U{2002}', '\U{2003}', '\U{2004}', '\U{2005}',
          '\U{2006}', '\U{2007}', '\U{2008}', '\U{2009}', '\U{200A}', '\U{2028}',
          '\U{2029}', '\U{202F}', '\U{205F}', '\U{3000}', '\U{FEFF}'}
  }

  /** Every character of `s` is white space (the empty string included). */
  predicate IsBlank(s: string) {
    forall i :: 0 <= i < |s| ==> IsSpace(s[i])
  }

  /** The position of the first character at or after `i` that is not
      white space, or `|s|` when there is none. */
  function SkipSpaceFrom(s: string, i: nat): (k: nat)
    requires i <= |s|
    ensures i <= k <= |s|
    ensures forall j :: i <= j < k ==> IsSpace(s[j])
    ensures k < |s| ==> !IsSpace(s[k])
    decreases |s| - i
  {
    if i < |s| && IsSpace(s[i]) then SkipSpaceFrom(s, i + 1) else i
  }

  /** The end of `s[lo..hi]` once its trailing white space is dropped. */
  function SkipSpaceBack(s: string, lo: nat, hi: nat): (k: nat)
    requires lo <= hi <= |s|
    ensures lo <= k <= hi
    ensures forall j :: k <= j < hi ==> IsSpace(s[j])
    ensures k > lo ==> !IsSpace(s[k - 1])
  {
    if hi > lo && IsSpace(s[hi - 1]) then SkipSpaceBack(s, lo, hi - 1) else hi
  }

  /** JavaScript's `s.trim()`: the slice of `s` left once leading and
      trailing white space is dropped; what is dropped is all white space and
      what is left neither starts nor ends with white space. */
  function Trim(s: string): (r: string)
    ensures |r| <= |s|
    ensures r != [] ==> !IsSpace(r[0]) && !IsSpace(r[|r| - 1])
    ensures exists lo, hi :: 0 <= lo <= hi <= |s| && r == s[lo..hi] && IsBlank(s[..lo]) && IsBlank(s[hi..])
  {
    var lo := SkipSpaceFrom(s, 0);
    var hi := SkipSpaceBack(s, lo, |s|);
    assert IsBlank(s[..lo]) && IsBlank(s[hi..]);
    s[lo..hi]
  }

  /** Trimming leaves nothing exactly when the text is all white space: the
      condition under which the page's `!text.trim()` gate refuses it. */
  lemma TrimEmptyIffBlank(s: string)
    ensures Trim(s) == [] <==> IsBlank(s)
  {
    var lo := SkipSpaceFrom(s, 0);
    var hi := SkipSpaceBack(s, lo, |s|);
    if lo < |s| {
      assert !IsSpace(s[lo]);
      assert hi > lo;
    }
  }

  /** Trimming a trimmed text changes nothing. */
  lemma TrimIdempotent(s: string)
    ensures Trim(Trim(s)) == Trim(s)
  {
    var r := Trim(s);
    if r != [] {
      assert SkipSpaceFrom(r, 0) == 0;
      assert SkipSpaceBack(r, 0, |r|) == |r|;
    }
  }

  /** The request `addExam` sends, or `None` when the name or URL is blank and
      no request is made: a stopped, manual exam with the trimmed fields and
      empty timers. */
  function NewExamRequestFor(name: string, url: string, labId: LabId): (r: Option<NewExamRequest>)
    ensures r.None? <==> IsBlank(name) || IsBlank(url)
    ensures r.Some? ==> r.value.name == Trim(name) && r.value.url == Trim(url) && r.value.labId == labId
    ensures r.Some? ==> r.value.status == Stopped && !r.value.autoMode
    ensures r.Some? ==> r.value.autoOnTime == Unset && r.value.autoOffTime == Unset
  {
    TrimEmptyIffBlank(name);
    TrimEmptyIffBlank(url);
    if Trim(name) == [] || Trim(url) == [] then None
    else Some(NewExamRequest(Trim(name), Trim(url), Stopped, false, Unset, Unset, labId))
  }

  /** The request body `saveExamEdits` sends, or `None` when the edited name or
      URL is blank: a patch carrying exactly the trimmed name and URL. */
  function EditRequestFor(name: string, url: string): (r: Option<Patch>)
    ensures r.None? <==> IsBlank(name) || IsBlank(url)
    ensures r.Some? ==> r.value == EmptyPatch.(name := Some(Trim(name)), url := Some(Trim(url)))
    ensures r.Some? ==> Trim(name) != [] && Trim(url) != []
  {
    TrimEmptyIffBlank(name);
    TrimEmptyIffBlank(url);
    if Trim(name) == [] || Trim(url) == [] then None
    else Some(EmptyPatch.(name := Some(Trim(name)), url := Some(Trim(url))))
  }
}
