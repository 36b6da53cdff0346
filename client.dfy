/** The browser client: the two string helpers used when rendering issue
    cards, and the add/edit mode of the issue form together with the request
    its submit handler sends. */
module Client {
  import opened Wrappers
  import opened Issues

  // ---------------------------------------------------------------------
  // HTML escaping
  // ---------------------------------------------------------------------

  /** `s.replace(/c/g, rep)`: every occurrence of `c` becomes `rep`. */
  function ReplaceAll(s: string, c: char, rep: string): (r: string)
    ensures forall x :: x in r ==> (x in s && x != c) || x in rep
    ensures c !in s ==> r == s
  {
    if s == [] then []
    else (if s[0] == c then rep else [s[0]]) + ReplaceAll(s[1..], c, rep)
  }

  /** The five global replacements of `escapeHtml`, in the source's order. */
  function ReplaceSpecials(s: string): (r: string)
    ensures forall x :: x in r ==> x != '<' && x != '>' && x != '"' && x != '\''
  {
    var s1 := ReplaceAll(s, '&', "&amp;");
    var s2 := ReplaceAll(s1, '<', "&lt;");
    assert '<' !in s2 by { assert '<' !in "&lt;"; }
    var s3 := ReplaceAll(s2, '>', "&gt;");
    assert '<' !in s3 && '>' !in s3 by { assert '<' !in "&gt;" && '>' !in "&gt;"; }
    var s4 := ReplaceAll(s3, '"', "&quot;");
    assert '<' !in s4 && '>' !in s4 && '"' !in s4 by {
      assert '<' !in "&quot;" && '>' !in "&quot;" && '"' !in "&quot;";
    }
    var s5 := ReplaceAll(s4, '\'', "&#039;");
    assert '<' !in s5 && '>' !in s5 && '"' !in s5 && '\'' !in s5 by {
      assert '<' !in "&#039;" && '>' !in "&#039;" && '"' !in "&#039;" && '\'' !in "&#039;";
    }
    s5
  }

  /** `escapeHtml`: empty for an absent or empty argument, otherwise the five
      replacements. */
  function EscapeHtml(unsafe: Option<string>): (r: string)
    ensures unsafe.None? || unsafe == Some("") ==> r == ""
    ensures forall x :: x in r ==> x != '<' && x != '>' && x != '"' && x != '\''
  {
    if unsafe.None? || unsafe.value == "" then "" else ReplaceSpecials(unsafe.value)
  }

  /** The entity one character is escaped to. */
  function EscapeChar(c: char): string {
    match c
    case '&' => "&amp;"
    case '<' => "&lt;"
    case '>' => "&gt;"
    case '"' => "&quot;"
    case '\'' => "&#039;"
    case _ => [c]
  }

  /** Escaping character by character. */
  function EscapeEach(s: string): string {
    if s == [] then [] else EscapeChar(s[0]) + EscapeEach(s[1..])
  }

  predicate StartsWith(s: string, prefix: string) {
    |prefix| <= |s| && s[..|prefix|] == prefix
  }

  /** Decoding of the five entities `escapeHtml` produces. */
  function Unescape(s: string): string
    decreases |s|
  {
    if s == [] then []
    else if StartsWith(s, "&amp;") then ['&'] + Unescape(s[5..])
    else if StartsWith(s, "&lt;") then ['<'] + Unescape(s[4..])
    else if StartsWith(s, "&gt;") then ['>'] + Unescape(s[4..])
    else if StartsWith(s, "&quot;") then ['"'] + Unescape(s[6..])
    else if StartsWith(s, "&#039;") then ['\''] + Unescape(s[6..])
    else [s[0]] + Unescape(s[1..])
  }

  lemma {:induction false} ReplaceAllAppend(a: string, b: string, c: char, rep: string)
    ensures ReplaceAll(a + b, c, rep) == ReplaceAll(a, c, rep) + ReplaceAll(b, c, rep)
  {
    if a == [] {
      assert a + b == b;
    } else {
      assert (a + b)[1..] == a[1..] + b;
      ReplaceAllAppend(a[1..], b, c, rep);
    }
  }

  lemma ReplaceSpecialsAppend(a: string, b: string)
    ensures ReplaceSpecials(a + b) == ReplaceSpecials(a) + ReplaceSpecials(b)
  {
    var a1, b1 := ReplaceAll(a, '&', "&amp;"), ReplaceAll(b, '&', "&amp;");
    ReplaceAllAppend(a, b, '&', "&amp;");
    var a2, b2 := ReplaceAll(a1, '<', "&lt;"), ReplaceAll(b1, '<', "&lt;");
    ReplaceAllAppend(a1, b1, '<', "&lt;");
    var a3, b3 := ReplaceAll(a2, '>', "&gt;"), ReplaceAll(b2, '>', "&gt;");
    ReplaceAllAppend(a2, b2, '>', "&gt;");
    var a4, b4 := ReplaceAll(a3, '"', "&quot;"), ReplaceAll(b3, '"', "&quot;");
    ReplaceAllAppend(a3, b3, '"', "&quot;");
    ReplaceAllAppend(a4, b4, '\'', "&#039;");
  }

  lemma ReplaceAllOne(d: char, c: char, rep: string)
    ensures ReplaceAll([d], c, rep) == if d == c then rep else [d]
  {
    assert [d][1..] == [];
  }

  /** On one character the replacement chain gives that character's entity:
      the ampersand goes first, so no later entity is escaped again. */
  lemma ReplaceSpecialsChar(c: char)
    ensures ReplaceSpecials([c]) == EscapeChar(c)
  {
    ReplaceAllOne(c, '&', "&amp;");
    var s1 := ReplaceAll([c], '&', "&amp;");
    if c == '&' {
      assert s1 == "&amp;";
      assert '<' !in s1 && '>' !in s1 && '"' !in s1 && '\'' !in s1;
    } else {
      assert s1 == [c];
      ReplaceAllOne(c, '<', "&lt;");
      var s2 := ReplaceAll(s1, '<', "&lt;");
      if c == '<' {
        assert s2 == "&lt;";
        assert '>' !in s2 && '"' !in s2 && '\'' !in s2;
      } else {
        assert s2 == [c];
        ReplaceAllOne(c, '>', "&gt;");
        var s3 := ReplaceAll(s2, '>', "&gt;");
        if c == '>' {
          assert s3 == "&gt;";
          assert '"' !in s3 && '\'' !in s3;
        } else {
          assert s3 == [c];
          ReplaceAllOne(c, '"', "&quot;");
          var s4 := ReplaceAll(s3, '"', "&quot;");
          if c == '"' {
            assert s4 == "&quot;";
            assert '\'' !in s4;
          } else {
            assert s4 == [c];
            ReplaceAllOne(c, '\'', "&#039;");
          }
        }
      }
    }
  }

  /** `escapeHtml` is the per-character map: `&`, `<`, `>`, `"` and `'`
      become their entities, every other character stays. */
  lemma {:induction false} EscapeHtmlIsCharMap(s: string)
    ensures EscapeHtml(Some(s)) == EscapeEach(s)
  {
    if s != [] {
      assert s == [s[0]] + s[1..];
      ReplaceSpecialsAppend([s[0]], s[1..]);
      ReplaceSpecialsChar(s[0]);
      EscapeHtmlIsCharMap(s[1..]);
    }
  }

  lemma UnescapeEscapeChar(c: char, u: string)
    ensures Unescape(EscapeChar(c) + u) == [c] + Unescape(u)
  {
    var s := EscapeChar(c) + u;
    if c == '&' {
      assert s[..5] == "&amp;" && s[5..] == u;
    } else if c == '<' {
      assert s[..4] == "&lt;" && s[4..] == u;
      assert !StartsWith(s, "&amp;") by { assert s[1] != "&amp;"[1]; }
    } else if c == '>' {
      assert s[..4] == "&gt;" && s[4..] == u;
      assert !StartsWith(s, "&amp;") by { assert s[1] != "&amp;"[1]; }
      assert !StartsWith(s, "&lt;") by { assert s[1] != "&lt;"[1]; }
    } else if c == '"' {
      assert s[..6] == "&quot;" && s[6..] == u;
      assert !StartsWith(s, "&amp;") by { assert s[1] != "&amp;"[1]; }
      assert !StartsWith(s, "&lt;") by { assert s[1] != "&lt;"[1]; }
      assert !StartsWith(s, "&gt;") by { assert s[1] != "&gt;"[1]; }
    } else if c == '\'' {
      assert s[..6] == "&#039;" && s[6..] == u;
      assert !StartsWith(s, "&amp;") by { assert s[1] != "&amp;"[1]; }
      assert !StartsWith(s, "&lt;") by { assert s[1] != "&lt;"[1]; }
      assert !StartsWith(s, "&gt;") by { assert s[1] != "&gt;"[1]; }
      assert !StartsWith(s, "&quot;") by { assert s[1] != "&quot;"[1]; }
    } else {
      assert s[0] == c && s[1..] == u;
      assert !StartsWith(s, "&amp;") && !StartsWith(s, "&lt;") && !StartsWith(s, "&gt;") &&
        !StartsWith(s, "&quot;") && !StartsWith(s, "&#039;") by {
        assert s[0] != '&';
      }
    }
  }

  /** Decoding the five entities after `escapeHtml` gives the input back. */
  lemma {:induction false} EscapeHtmlRoundTrip(s: string)
    ensures Unescape(EscapeHtml(Some(s))) == s
  {
    EscapeHtmlIsCharMap(s);
    EscapeEachRoundTrip(s);
  }

  lemma {:induction false} EscapeEachRoundTrip(s: string)
    ensures Unescape(EscapeEach(s)) == s
  {
    if s != [] {
      UnescapeEscapeChar(s[0], EscapeEach(s[1..]));
      EscapeEachRoundTrip(s[1..]);
    }
  }

  // ---------------------------------------------------------------------
  // Status labels
  // ---------------------------------------------------------------------

  /** `toUpperCase` on one ASCII character. */
  function UpperAscii(c: char): (u: char)
    ensures !('a' <= u <= 'z')
    ensures 'a' <= c <= 'z' ==> u as int == c as int - 32
    ensures !('a' <= c <= 'z') ==> u == c
  {
    if 'a' <= c <= 'z' then (c as int - 32) as char else c
  }

  /** `indexOf(c)`: the first position of `c`, if any. */
  function IndexOf(s: string, c: char): (k: Option<nat>)
    ensures k.None? <==> forall i :: 0 <= i < |s| ==> s[i] != c
    ensures k.Some? ==> k.value < |s| && s[k.value] == c
    ensures k.Some? ==> forall i :: 0 <= i < k.value ==> s[i] != c
  {
    if s == [] then None
    else if s[0] == c then Some(0)
    else
      match IndexOf(s[1..], c)
      case None => None
      case Some(j) => Some(j + 1)
  }

  /** `s.replace(from, to)` with a string pattern: only the first occurrence
      is replaced. */
  function ReplaceFirst(s: string, from: char, to: char): (r: string)
    ensures match IndexOf(s, from)
      case None => r == s
      case Some(k) => r == s[k := to]
  {
    if s == [] then []
    else if s[0] == from then [to] + s[1..]
    else [s[0]] + ReplaceFirst(s[1..], from, to)
  }

  /** `formatStatus`: "Pending" for an absent or empty status; otherwise the
      first character upper-cased and the first later `-` turned into a
      space. */
  function FormatStatus(status: Option<string>): (r: string)
    ensures status.None? || status == Some("") ==> r == "Pending"
    ensures status.Some? && status.value != "" ==>
      |r| == |status.value| && r[0] == UpperAscii(status.value[0])
  {
    if status.None? || status.value == "" then "Pending"
    else [UpperAscii(status.value[0])] + ReplaceFirst(status.value[1..], '-', ' ')
  }

  /** After the first character, `formatStatus` turns exactly the first
      hyphen into a space and keeps everything else. */
  lemma FormatStatusHyphen(status: string)
    requires status != ""
    ensures match IndexOf(status[1..], '-')
      case None => FormatStatus(Some(status))[1..] == status[1..]
      case Some(k) => FormatStatus(Some(status))[1..] == status[1..][k := ' ']
  {
    assert FormatStatus(Some(status))[1..] == ReplaceFirst(status[1..], '-', ' ');
  }

  /** The statuses without a hyphen are only capitalised. */
  lemma FormatStatusLabels()
    ensures FormatStatus(Some("pending")) == "Pending"
    ensures FormatStatus(Some("resolved")) == "Resolved"
  {
    assert "pending" == ['p'] + "ending" && "Pending" == ['P'] + "ending";
    NoHyphenUnchanged("pending");
    assert "resolved" == ['r'] + "esolved" && "Resolved" == ['R'] + "esolved";
    NoHyphenUnchanged("resolved");
  }

  /** Only the first hyphen after the first character becomes a space;
      later hyphens stay. */
  lemma {:induction false} FormatStatusFirstHyphen(c: char, pre: string, post: string)
    requires '-' !in pre
    ensures FormatStatus(Some([c] + pre + ['-'] + post)) == [UpperAscii(c)] + pre + [' '] + post
  {
    var s := [c] + pre + ['-'] + post;
    assert s[1..] == pre + ['-'] + post;
    ReplaceFirstAfter(pre, post);
  }

  lemma {:induction false} ReplaceFirstAfter(pre: string, post: string)
    requires '-' !in pre
    ensures ReplaceFirst(pre + ['-'] + post, '-', ' ') == pre + [' '] + post
  {
    if pre == [] {
      assert pre + ['-'] + post == ['-'] + post;
    } else {
      assert (pre + ['-'] + post)[1..] == pre[1..] + ['-'] + post;
      ReplaceFirstAfter(pre[1..], post);
    }
  }

  /** "in-progress" is labelled "In progress", and in "a-b-c" only the first
      hyphen is replaced. */
  lemma FormatStatusExamples()
    ensures FormatStatus(Some("in-progress")) == "In progress"
    ensures FormatStatus(Some("a-b-c")) == "A b-c"
  {
    assert "in-progress" == ['i'] + "n" + ['-'] + "progress";
    assert "In progress" == ['I'] + "n" + [' '] + "progress";
    FormatStatusFirstHyphen('i', "n", "progress");
    assert "a-b-c" == ['a'] + "" + ['-'] + "b-c";
    assert "A b-c" == ['A'] + "" + [' '] + "b-c";
    FormatStatusFirstHyphen('a', "", "b-c");
  }

  lemma NoHyphenUnchanged(status: string)
    requires status != [] && '-' !in status
    ensures FormatStatus(Some(status)) == [UpperAscii(status[0])] + status[1..]
  {
    assert forall i :: 0 <= i < |status[1..]| ==> status[1..][i] != '-' by {
      forall i | 0 <= i < |status[1..]| ensures status[1..][i] != '-' {
        assert status[1..][i] == status[i + 1];
      }
    }
  }

  // ---------------------------------------------------------------------
  // Trimming
  // ---------------------------------------------------------------------

  /** The characters `String.prototype.trim` removes: white space and line
      terminators. */
  predicate IsSpace(c: char)
    ensures c == ' ' || c == '\t' || c == '\n' || c == '\r' ==> IsSpace(c)
    ensures '!' <= c <= '~' ==> !IsSpace(c)
  {
    c == '\t' || c == '\n' || c == '\U{000B}' || c == '\U{000C}' || c == '\r' ||
    c == ' ' || c == '\U{00A0}' || c == '\U{1680}' ||
    ('\U{2000}' <= c <= '\U{200A}') || c == '\U{2028}' || c == '\U{2029}' ||
    c == '\U{202F}' || c == '\U{205F}' || c == '\U{3000}' || c == '\U{FEFF}'
  }

  /** The first position at or after `i` that is not white space, or `|s|`. */
  function SkipSpaces(s: string, i: nat): (n: nat)
    requires i <= |s|
    ensures i <= n <= |s|
    ensures forall k :: i <= k < n ==> IsSpace(s[k])
    ensures n < |s| ==> !IsSpace(s[n])
    decreases |s| - i
  {
    if i < |s| && IsSpace(s[i]) then SkipSpaces(s, i + 1) else i
  }

  /** The end of `s[lo..j]` once its trailing white space is dropped. */
  function SkipSpacesBack(s: string, lo: nat, j: nat): (n: nat)
    requires lo <= j <= |s|
    ensures lo <= n <= j
    ensures forall k :: n <= k < j ==> IsSpace(s[k])
    ensures n > lo ==> !IsSpace(s[n - 1])
    decreases j
  {
    if j > lo && IsSpace(s[j - 1]) then SkipSpacesBack(s, lo, j - 1) else j
  }

  /** `trim`: the input without its leading and trailing white space. The
      result is the piece of `s` that starts at the first non-space
      character; everything before and after that piece is white space, and
      the piece neither starts nor ends with white space. */
  function Trim(s: string): (r: string)
    ensures r != [] ==> !IsSpace(r[0]) && !IsSpace(r[|r| - 1])
    ensures var i := SkipSpaces(s, 0);
      i + |r| <= |s| && r == s[i..i + |r|] &&
      (forall k :: 0 <= k < i ==> IsSpace(s[k])) &&
      (forall k :: i + |r| <= k < |s| ==> IsSpace(s[k]))
  {
    var i := SkipSpaces(s, 0);
    var j := SkipSpacesBack(s, i, |s|);
    s[i..j]
  }

  /** Trimming twice is trimming once. */
  lemma TrimIdempotent(s: string)
    ensures Trim(Trim(s)) == Trim(s)
  {
    var r := Trim(s);
    if r != [] {
      assert SkipSpaces(r, 0) == 0;
      assert SkipSpacesBack(r, 0, |r|) == |r|;
      assert r[0..|r|] == r;
    }
  }

  // ---------------------------------------------------------------------
  // Form mode and submission
  // ---------------------------------------------------------------------

  datatype Verb = Post | Put

  /** `/api/issues` or `/api/issues/<id>`. */
  datatype Target = Collection | Item(id: int)

  /** The raw values of the four form inputs. */
  datatype FormFields = FormFields(
    title: string,
    description: string,
    datePromised: string,
    status: string)

  /** The request `handleFormSubmit` sends; the payload has the shape of a
      create body. */
  datatype Request = Request(verb: Verb, target: Target, payload: NewIssueBody)

  /** The update body a form submission carries: all four fields present. */
  function AsPatch(p: NewIssueBody): Patch {
    Patch(None, Some(p.title), Some(p.description), Some(p.datePromised), Some(p.status))
  }

  /** A PUT sent from the form replaces all four text fields of the issue
      and keeps its id. */
  lemma FormUpdateReplacesFields(stored: Issue, p: NewIssueBody)
    ensures Merge(stored, AsPatch(p), stored.id) ==
      Issue(stored.id, p.title, p.description, p.datePromised, p.status)
  {
  }

  /** The globals `isEditMode` and `editingIssueId` (`None` for `null`). */
  class FormMode {
    var isEditMode: bool
    var editingIssueId: Option<int>

    /** Edit mode always carries the id being edited, add mode none. */
    ghost predicate Valid()
      reads this
    {
      isEditMode <==> editingIssueId.Some?
    }

    constructor ()
      ensures Valid() && !isEditMode && editingIssueId == None
    {
      isEditMode := false;
      editingIssueId := None;
    }

    /** The Add button's click handler. */
    method AddClicked()
      modifies this
      ensures Valid() && !isEditMode && editingIssueId == None
    {
      isEditMode := false;
      editingIssueId := None;
    }

    /** `editIssue(id)`: `detailOk` is whether the per-issue request succeeds
        and `listing` the fetched list (`None` if that fetch fails). Edit mode
        is entered only when the list holds an issue with the id; the issue
        returned is the one whose fields the form is then given. */
    method EditIssue(id: Option<int>, detailOk: bool, listing: Option<seq<Issue>>)
      returns (shown: Option<Issue>)
      requires Valid()
      modifies this
      ensures Valid()
      ensures shown.Some? <==> detailOk && listing.Some? && FirstMatch(listing.value, id).Some?
      ensures shown.Some? ==>
        isEditMode && editingIssueId == id &&
        shown.value == listing.value[FirstMatch(listing.value, id).value]
      ensures shown.None? ==>
        isEditMode == old(isEditMode) && editingIssueId == old(editingIssueId)
    {
      if !detailOk || listing.None? {
        return None;
      }
      var k := FirstMatch(listing.value, id);
      if k.None? {
        return None;
      }
      isEditMode := true;
      editingIssueId := id;
      shown := Some(listing.value[k.value]);
    }

    /** `handleFormSubmit`: PUT to the edited issue in edit mode, POST to the
        collection otherwise; title and description are trimmed. */
    method Submit(form: FormFields) returns (req: Request)
      requires Valid()
      ensures req.payload ==
        NewIssueBody(Trim(form.title), Trim(form.description), form.datePromised, form.status)
      ensures req.verb == Put <==> isEditMode
      ensures isEditMode ==> req.target == Item(editingIssueId.value)
      ensures !isEditMode ==> req.target == Collection
    {
      var formData := NewIssueBody(
        Trim(form.title), Trim(form.description), form.datePromised, form.status);
      if isEditMode {
        req := Request(Put, Item(editingIssueId.value), formData);
      } else {
        req := Request(Post, Collection, formData);
      }
    }
  }
}
