/** The two model forms of yatube/posts/forms.py as the views use them:
    `PostForm` binds `text`, `group` and `image`, `CommentForm` binds
    `text`. The cleaning rules are not code of the repository but
    behaviour of the web framework's form fields, which these forms
    inherit: a text field strips surrounding whitespace, is required and
    refuses NUL characters, a group choice must name an existing group,
    and the image is optional. */
module Forms {
  import opened Seqs
  import opened Entities

  /** Submitted post data; `image` is `None` when no file is uploaded. */
  datatype PostForm = PostForm(text: string, group: Option<GroupId>, image: Option<ImageRef>)

  datatype CommentForm = CommentForm(text: string)

  /** The cleaned values of a valid post form. */
  datatype PostData = PostData(text: string, group: Option<GroupId>, image: Option<ImageRef>)

  /** Whitespace that a text field strips: space, tab, line feed, vertical
      tab, form feed and carriage return. */
  predicate IsSpace(c: char) {
    c == ' ' || '\t' <= c <= '\r'
  }

  /** How many whitespace characters the text starts with. */
  function LeadingSpaces(s: string): (k: nat)
    ensures k <= |s|
    ensures forall i :: 0 <= i < k ==> IsSpace(s[i])
    ensures k == |s| || !IsSpace(s[k])
  {
    if s != [] && IsSpace(s[0]) then
      var k := 1 + LeadingSpaces(s[1..]);
      assert forall i :: 1 <= i < k ==> s[i] == s[1..][i - 1];
      k
    else 0
  }

  /** How many whitespace characters the text ends with. */
  function TrailingSpaces(s: string): (k: nat)
    ensures k <= |s|
    ensures forall i :: |s| - k <= i < |s| ==> IsSpace(s[i])
    ensures k == |s| || !IsSpace(s[|s| - k - 1])
  {
    if s != [] && IsSpace(s[|s| - 1]) then 1 + TrailingSpaces(s[..|s| - 1]) else 0
  }

  /** Python's `str.strip()`: empty exactly for blank text, and otherwise
      beginning and ending with a non-whitespace character. */
  function Strip(s: string): (r: string)
    ensures |r| <= |s|
    ensures r == [] <==> forall i :: 0 <= i < |s| ==> IsSpace(s[i])
    ensures r != [] ==> !IsSpace(r[0]) && !IsSpace(r[|r| - 1])
  {
    var k := LeadingSpaces(s);
    var m := TrailingSpaces(s[k..]);
    s[k..|s| - m]
  }

  /** Stripping removes only whitespace, and only at the two ends: what
      remains is one contiguous piece of the text. */
  lemma StripKeepsMiddle(s: string)
    ensures var k := LeadingSpaces(s);
      && k + |Strip(s)| <= |s|
      && Strip(s) == s[k..k + |Strip(s)|]
      && (forall i :: 0 <= i < k ==> IsSpace(s[i]))
      && (forall i :: k + |Strip(s)| <= i < |s| ==> IsSpace(s[i]))
  {
    var k := LeadingSpaces(s);
    var t := s[k..];
    var m := TrailingSpaces(t);
    assert Strip(s) == s[k..|s| - m];
    forall i | |s| - m <= i < |s| ensures IsSpace(s[i]) {
      assert s[i] == t[i - k];
    }
  }

  /** A NUL character is not whitespace, so stripping never removes one. */
  lemma NulSurvivesStrip(s: string)
    ensures '\0' in Strip(s) <==> '\0' in s
  {
    StripKeepsMiddle(s);
    var k := LeadingSpaces(s);
    var r := Strip(s);
    if '\0' in s {
      var i :| 0 <= i < |s| && s[i] == '\0';
      assert !IsSpace(s[i]);
      assert r[i - k] == s[i];
    }
  }

  /** Stripping twice is stripping once. */
  lemma StripIsIdempotent(s: string)
    ensures Strip(Strip(s)) == Strip(s)
  {
    var r := Strip(s);
    if r != [] {
      assert LeadingSpaces(r) == 0;
      assert r[0..] == r;
      assert TrailingSpaces(r) == 0;
    }
  }

  /** The framework's text field: the stripped text, or nothing when it is
      blank (the field is required) or holds a NUL character (the field's
      null-character validator). */
  function CleanText(text: string): (r: Option<string>)
    ensures r.Some? <==> Strip(text) != [] && '\0' !in Strip(text)
    ensures r.Some? ==> r.value == Strip(text)
  {
    var t := Strip(text);
    if t == [] then None
    else if '\0' in t then None
    else Some(t)
  }

  /** `PostForm(request.POST or None, ...).is_valid()` and its cleaned
      data: an unbound form (no submitted data) is invalid, the text must
      be neither blank nor hold a NUL character, and a chosen group must
      exist. */
  function CleanPostForm(groups: seq<Group>, form: Option<PostForm>): (r: Option<PostData>)
    ensures r.Some? <==> (form.Some? && Strip(form.value.text) != [] && '\0' !in form.value.text
      && (form.value.group.Some? ==> form.value.group.value in GroupIds(groups)))
    ensures r.Some? ==> r.value == PostData(Strip(form.value.text), form.value.group, form.value.image)
  {
    match form
    case None => None
    case Some(f) =>
      NulSurvivesStrip(f.text);
      match CleanText(f.text)
      case None => None
      case Some(text) =>
        if f.group.Some? && f.group.value !in GroupIds(groups) then None
        else Some(PostData(text, f.group, f.image))
  }

  /** `CommentForm(request.POST or None).is_valid()` and the cleaned text:
      an unbound form is invalid, and the text must be neither blank nor
      hold a NUL character. */
  function CleanCommentForm(form: Option<CommentForm>): (r: Option<string>)
    ensures r.Some? <==> form.Some? && Strip(form.value.text) != [] && '\0' !in form.value.text
    ensures r.Some? ==> r.value == Strip(form.value.text) && r.value != []
  {
    match form
    case None => None
    case Some(f) => NulSurvivesStrip(f.text); CleanText(f.text)
  }
}
