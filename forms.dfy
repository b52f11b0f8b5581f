/** The validators behind the monster-selection modal, the save button and
    the save form. */
module Forms {
  import opened Wrappers
  import opened Catalog
  import opened Gallery

  const StartLabel: string := "Start Creating"
  const DifferentLabel: string := "Please select different monsters"

  /** The modal's confirm button. */
  datatype ConfirmButton = ConfirmButton(enabled: bool, caption: string)

  /** `validateModalSelection`, over the two drop-down values ("" when
      nothing is chosen). */
  function ValidateModal(id1: string, id2: string): (b: ConfirmButton)
    ensures b.enabled <==> id1 != "" && id2 != "" && id1 != id2
    ensures b.caption == DifferentLabel <==> id1 != "" && id1 == id2
    ensures b.caption == DifferentLabel || b.caption == StartLabel
  {
    ConfirmButton(id1 != "" && id2 != "" && id1 != id2,
                  if id1 != "" && id2 != "" && id1 == id2 then DifferentLabel else StartLabel)
  }

  /** The button never invites a start it refuses for a repeated monster:
      an enabled button reads "Start Creating", and the warning is shown on
      a disabled one. */
  lemma ModalLabelAgreesWithState(id1: string, id2: string)
    ensures ValidateModal(id1, id2).enabled ==> ValidateModal(id1, id2).caption == StartLabel
    ensures ValidateModal(id1, id2).caption == DifferentLabel ==> !ValidateModal(id1, id2).enabled
    ensures (id1 == "" || id2 == "") ==>
      !ValidateModal(id1, id2).enabled && ValidateModal(id1, id2).caption == StartLabel
  {
  }

  const SelectLabel: string := "Select Monsters"
  const ChangeLabel: string := "Change Monsters"

  /** The caption of the monster-choice button and whether saving is
      possible. */
  datatype Buttons = Buttons(changeLabel: string, saveEnabled: bool)

  /** The button update of `updateSelectedMonstersDisplay`. */
  function ButtonStates(slot1: Option<Monster>, slot2: Option<Monster>, partCount: nat): (b: Buttons)
    ensures b.saveEnabled <==> (slot1.Some? || slot2.Some?) && partCount > 0
    ensures b.changeLabel == SelectLabel <==> slot1.None? && slot2.None?
    ensures b.changeLabel == SelectLabel || b.changeLabel == ChangeLabel
  {
    if SelectedCount(slot1, slot2) == 0 then Buttons(SelectLabel, false)
    else Buttons(ChangeLabel, partCount != 0)
  }

  /** The characters `String.prototype.trim` removes: the ECMAScript
      WhiteSpace (tab, vertical tab, form feed, the byte-order mark and
      every space separator) and LineTerminator code points. */
  predicate IsJsWhitespace(c: char) {
    c == '\t' || c == '\U{000B}' || c == '\U{000C}' || c == ' ' || c == '\U{00A0}' ||
    c == '\U{FEFF}' || c == '\U{1680}' || ('\U{2000}' <= c <= '\U{200A}') ||
    c == '\U{202F}' || c == '\U{205F}' || c == '\U{3000}' ||
    c == '\n' || c == '\r' || c == '\U{2028}' || c == '\U{2029}'
  }

  predicate AllWhitespace(s: string) {
    forall k :: 0 <= k < |s| ==> IsJsWhitespace(s[k])
  }

  /** The string without its leading whitespace. */
  function TrimStart(s: string): (r: string)
    ensures |r| <= |s| && r == s[|s| - |r|..]
    ensures AllWhitespace(s[..|s| - |r|])
    ensures r == [] || !IsJsWhitespace(r[0])
  {
    if s == [] || !IsJsWhitespace(s[0]) then s
    else
      var r := TrimStart(s[1..]);
      assert s[..|s| - |r|] == [s[0]] + s[1..][..|s[1..]| - |r|];
      r
  }

  /** The string without its trailing whitespace. */
  function TrimEnd(s: string): (r: string)
    ensures |r| <= |s| && r == s[..|r|]
    ensures AllWhitespace(s[|r|..])
    ensures r == [] || !IsJsWhitespace(r[|r| - 1])
  {
    if s == [] || !IsJsWhitespace(s[|s| - 1]) then s
    else
      var r := TrimEnd(s[..|s| - 1]);
      assert s[|r|..] == s[..|s| - 1][|r|..] + [s[|s| - 1]];
      r
  }

  /** `s.trim()`: the input with its leading and trailing whitespace cut
      off, so that what is left neither starts nor ends with whitespace. */
  function Trim(s: string): (r: string)
    ensures exists i, j :: (0 <= i <= j <= |s| && r == s[i..j] &&
                            AllWhitespace(s[..i]) && AllWhitespace(s[j..]))
    ensures r == [] || (!IsJsWhitespace(r[0]) && !IsJsWhitespace(r[|r| - 1]))
  {
    var t := TrimStart(s);
    var r := TrimEnd(t);
    var i := |s| - |t|;
    var j := i + |r|;
    assert r == s[i..j] && s[j..] == t[|r|..];
    assert r != [] ==> r[0] == t[0];
    r
  }

  lemma AllWhitespaceConcat(a: string, b: string)
    ensures AllWhitespace(a + b) <==> AllWhitespace(a) && AllWhitespace(b)
  {
    forall k | 0 <= k < |a| ensures (a + b)[k] == a[k] {}
    forall k | 0 <= k < |b| ensures (a + b)[|a| + k] == b[k] {}
  }

  /** A trimmed string is empty exactly when the input held only whitespace
      (the case in which saving asks for a name). */
  lemma TrimEmptyIffBlank(s: string)
    ensures Trim(s) == [] <==> AllWhitespace(s)
  {
    var t := TrimStart(s);
    var r := TrimEnd(t);
    assert Trim(s) == r;
    var n := |s| - |t|;
    // A blank input leaves nothing after the leading whitespace.
    assert t != [] ==> t[0] == s[n];
    if r == [] {
      // Then everything after the leading run is trailing whitespace, and
      // the input is the two runs joined.
      assert t[|r|..] == t;
      assert s == s[..n] + t;
      AllWhitespaceConcat(s[..n], t);
    }
  }

  /** Trimming a trimmed string changes nothing. */
  lemma TrimIdempotent(s: string)
    ensures Trim(Trim(s)) == Trim(s)
  {
    TrimFixes(Trim(s));
  }

  /** A string with no whitespace at either end is its own trim. */
  lemma TrimFixes(s: string)
    requires s == [] || (!IsJsWhitespace(s[0]) && !IsJsWhitespace(s[|s| - 1]))
    ensures Trim(s) == s
  {
  }

  /** The request body of `saveCreation`. */
  datatype SaveRequest = SaveRequest(name: string, author: string, parentMonsters: seq<string>)

  datatype SaveOutcome = NameMissing | Submit(request: SaveRequest)

  /** The names of the chosen monsters, slot 1 first, empty slots skipped. */
  function ParentNames(slot1: Option<Monster>, slot2: Option<Monster>): (r: seq<string>)
    ensures |r| == SelectedCount(slot1, slot2)
    ensures slot1.Some? ==> r[0] == slot1.value.name
    ensures slot2.Some? ==> r[|r| - 1] == slot2.value.name
  {
    (if slot1.Some? then [slot1.value.name] else []) +
    (if slot2.Some? then [slot2.value.name] else [])
  }

  /** The checks of `saveCreation` before the request is sent: a blank name
      is refused; the name and author are trimmed and a blank author becomes
      Anonymous. */
  function ValidateSave(nameInput: string, authorInput: string,
                        slot1: Option<Monster>, slot2: Option<Monster>): (o: SaveOutcome)
    ensures o.NameMissing? <==> AllWhitespace(nameInput)
    ensures o.Submit? ==>
      o.request.name == Trim(nameInput) && o.request.name != "" &&
      o.request.author != "" &&
      (AllWhitespace(authorInput) ==> o.request.author == Anonymous) &&
      (!AllWhitespace(authorInput) ==> o.request.author == Trim(authorInput)) &&
      o.request.parentMonsters == ParentNames(slot1, slot2)
  {
    TrimEmptyIffBlank(nameInput);
    TrimEmptyIffBlank(authorInput);
    var name := Trim(nameInput);
    if name == "" then NameMissing
    else
      var author := Trim(authorInput);
      Submit(SaveRequest(name, if author == "" then Anonymous else author,
                         ParentNames(slot1, slot2)))
  }

  /** A submitted name and author have no surrounding whitespace, so saving
      them again would send the same text. */
  lemma SavedTextIsTrimmed(nameInput: string, authorInput: string,
                           slot1: Option<Monster>, slot2: Option<Monster>)
    requires ValidateSave(nameInput, authorInput, slot1, slot2).Submit?
    ensures var q := ValidateSave(nameInput, authorInput, slot1, slot2).request;
      Trim(q.name) == q.name && Trim(q.author) == q.author
  {
    TrimIdempotent(nameInput);
    if AllWhitespace(authorInput) {
      AnonymousIsTrimmed();
    } else {
      TrimIdempotent(authorInput);
    }
  }

  lemma AnonymousIsTrimmed()
    ensures Trim(Anonymous) == Anonymous
  {
    var c, d := Anonymous[0], Anonymous[|Anonymous| - 1];
    assert c == 'A' && d == 's';
    assert !IsJsWhitespace(c) && !IsJsWhitespace(d);
    TrimFixes(Anonymous);
  }
}
