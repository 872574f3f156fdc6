/** `MainWidget::wglIsExtensionSupported`: whether the driver advertises a
    WGL/OpenGL extension, decided by scanning the driver's space-separated
    extension string for the name as a whole token. */
module Extensions {
  import opened Wrappers
  import opened CStrings
  import opened Tokens

  /** Outcome of the scan. `ReadsPastEnd` is the case the C code does not
      survive: with an empty name, `strstr` matches at the terminator, the
      boundary test fails there, and `p++` moves the scan past the `'\0'`
      into memory that is not part of the string. */
  datatype Verdict = Supported | Unsupported | ReadsPastEnd

  /** The extension string the scan runs over: the one reported by
      `wglGetExtensionsStringARB` when that entry point exists and answers
      with a string, otherwise the one from `glGetString(GL_EXTENSIONS)`.
      `None` on either side stands for a missing entry point or a NULL
      result. */
  function ExtensionString(arbList: Option<CString>, glList: Option<CString>): (r: Option<CString>)
    ensures r.None? <==> arbList.None? && glList.None?
    ensures arbList.Some? ==> r == arbList
    ensures arbList.None? ==> r == glList
  {
    if arbList.Some? then arbList else glList
  }

  /** The scan itself: starting at the beginning of the extension string,
      jump to the next occurrence of the name; accept it when it is a whole
      token, otherwise resume one character later. */
  method ScanForToken(s: CString, extension: CString) returns (v: Verdict)
    ensures v == Supported <==> HasWholeToken(s, extension)
    ensures v == ReadsPastEnd <==> extension == [] && !HasWholeToken(s, extension)
  {
    var extlen := |extension|;
    var p: nat := 0;
    while true
      invariant p <= |s|
      invariant forall j :: 0 <= j < p ==> !WholeTokenAt(s, extension, j)
      decreases |s| - p
    {
      var found := Find(s, extension, p);
      if found.None? {
        return Unsupported;
      }
      p := found.value;
      if (p == 0 || s[p - 1] == ' ') && (CharAt(s, p + extlen) == '\0' || CharAt(s, p + extlen) == ' ') {
        assert WholeTokenAt(s, extension, p);
        return Supported;
      }
      if p == |s| {
        return ReadsPastEnd;
      }
      p := p + 1;
    }
  }

  /** `wglIsExtensionSupported`: pick the extension string, answer
      `Unsupported` when there is none, otherwise scan it. For a name
      without spaces the answer is membership in the list of tokens. */
  method IsExtensionSupported(extension: CString, arbList: Option<CString>, glList: Option<CString>)
    returns (v: Verdict)
    ensures ExtensionString(arbList, glList).None? ==> v == Unsupported
    ensures v == Supported <==>
      ExtensionString(arbList, glList).Some? && HasWholeToken(ExtensionString(arbList, glList).value, extension)
    ensures v == ReadsPastEnd <==>
      ExtensionString(arbList, glList).Some? && extension == [] &&
      !HasWholeToken(ExtensionString(arbList, glList).value, extension)
    ensures ' ' !in extension ==>
      (v == Supported <==>
        ExtensionString(arbList, glList).Some? && extension in Split(ExtensionString(arbList, glList).value))
  {
    var supported := ExtensionString(arbList, glList);
    if supported.None? {
      return Unsupported;
    }
    v := ScanForToken(supported.value, extension);
    if ' ' !in extension {
      WholeTokenIffInSplit(supported.value, extension);
    }
  }

  /** For a nonempty name the scan never steps past the terminator: every
      match `strstr` reports ends at or before it, so the next start index
      is still inside the string. */
  lemma NonemptyNameStaysInBounds(s: CString, extension: CString, p: nat)
    requires p <= |s|
    requires extension != []
    requires Find(s, extension, p).Some?
    ensures Find(s, extension, p).value + 1 <= |s|
  {
  }

  /** The empty name is a whole token exactly when the list has an empty
      token: it is empty, starts or ends with a space, or has two spaces in
      a row. Otherwise the scan over it runs past the terminator. */
  lemma {:induction false} EmptyNameMatchesEmptyToken(s: string)
    ensures HasWholeToken(s, []) <==>
      |s| == 0 || s[0] == ' ' || s[|s| - 1] == ' ' ||
      exists i :: 0 < i < |s| && s[i - 1] == ' ' && s[i] == ' '
  {
    if |s| == 0 {
      assert WholeTokenAt(s, [], 0);
    } else if s[0] == ' ' {
      assert WholeTokenAt(s, [], 0);
    } else if s[|s| - 1] == ' ' {
      assert WholeTokenAt(s, [], |s|);
    } else if exists i :: 0 < i < |s| && s[i - 1] == ' ' && s[i] == ' ' {
      var i :| 0 < i < |s| && s[i - 1] == ' ' && s[i] == ' ';
      assert WholeTokenAt(s, [], i);
    } else if HasWholeToken(s, []) {
      var i :| 0 <= i <= |s| && WholeTokenAt(s, [], i);
      assert 0 < i < |s|;
    }
  }

  /** A name that is only the beginning of a longer token is rejected. */
  lemma PrefixOfLongerTokenRejected()
    ensures !HasWholeToken("wglExtensionTwo", "wglExtension")
  {
    SpaceFreeWholeToken("wglExtensionTwo", "wglExtension");
  }

  /** A name that is only the end of a longer token is rejected. */
  lemma SuffixOfLongerTokenRejected()
    ensures !HasWholeToken("wglFunkywglExtension", "wglExtension")
  {
    SpaceFreeWholeToken("wglFunkywglExtension", "wglExtension");
  }

  /** A rejected partial match does not end the scan: the first occurrence
      `strstr` reports is not a whole token, yet a later one is. */
  lemma RejectedMatchResumes()
    ensures Find("wglExtensionTwo wglExtension", "wglExtension", 0) == Some(0)
    ensures !WholeTokenAt("wglExtensionTwo wglExtension", "wglExtension", 0)
    ensures HasWholeToken("wglExtensionTwo wglExtension", "wglExtension")
  {
    var w: CString := "wglExtension";
    var head := "wglExtensionTwo ";
    var s: CString := "wglExtensionTwo wglExtension";
    assert s == head + w;
    assert head == w + "Two ";
    OccursAtFront(w, "Two " + w);
    assert s == w + ("Two " + w);
    TokenAfterSpace(head, w);
    assert s[|w|] == 'T';
  }

  /** A string occurs at the front of itself followed by anything. */
  lemma OccursAtFront(w: string, t: string)
    ensures OccursAt(w + t, w, 0)
  {
    assert (w + t)[0..|w|] == w;
  }

  /** A name placed right after a space, at the end of the string, is a
      whole token there. */
  lemma TokenAfterSpace(head: string, w: string)
    requires |head| > 0 && head[|head| - 1] == ' '
    ensures WholeTokenAt(head + w, w, |head|)
  {
    assert (head + w)[|head|..|head| + |w|] == w;
  }

  /** A name that contains a space can match across tokens: `a b` is
      accepted in `a b c` although no single token equals it. */
  lemma SpacedNameMatchesAcrossTokens()
    ensures HasWholeToken("a b c", "a b")
    ensures "a b" !in Split("a b c")
  {
    assert WholeTokenAt("a b c", "a b", 0);
    assert FirstSpace("c") == 1;
    assert Split("c") == ["c"];
    assert FirstSpace("b c") == 1;
    assert "b c"[..1] == "b" && "b c"[2..] == "c";
    assert Split("b c") == ["b", "c"];
    assert FirstSpace("a b c") == 1;
    assert "a b c"[..1] == "a" && "a b c"[2..] == "b c";
    assert Split("a b c") == ["a", "b", "c"];
  }
}
