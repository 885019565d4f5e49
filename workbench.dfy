/** The text edit `patch_workbench` applies to workbench.desktop.main.js:
    every `checkForUpdates` and then every `restrictPremiumModels` is wrapped
    in a block comment by a literal replace-all. */
module Workbench {
  import opened Substitution
  import opened Wrapping

  const UpdateCheck: string := "checkForUpdates"
  const ModelRestriction: string := "restrictPremiumModels"

  /** The two chained literal replacements: first every update check is
      wrapped, then every model restriction. */
  function Patch(content: string): string {
    ReplaceAll(FirstPass(content), ModelRestriction, Wrap(ModelRestriction))
  }

  /** The reverse edit: unwrap both markers, in the opposite order. */
  function Unpatch(content: string): string {
    ReplaceAll(ReplaceAll(content, Wrap(ModelRestriction), ModelRestriction), Wrap(UpdateCheck), UpdateCheck)
  }

  predicate NoMarker(content: string) {
    !Contains(content, UpdateCheck) && !Contains(content, ModelRestriction)
  }

  lemma MarkersInert()
    ensures Inert(UpdateCheck) && Inert(ModelRestriction)
  {
  }

  /** Neither marker can begin inside the other. */
  lemma MarkersDisjoint()
    ensures Disjoint(UpdateCheck, ModelRestriction)
  {
    forall i | 0 <= i < |UpdateCheck| ensures !Fits(UpdateCheck[i..], ModelRestriction) {
      if i == 7 {
        assert UpdateCheck[i..][1] == 'U' != ModelRestriction[1];
      } else {
        assert UpdateCheck[i..][0] == UpdateCheck[i] != 'r' == ModelRestriction[0];
      }
    }
    forall i | 0 <= i < |ModelRestriction| ensures !Fits(ModelRestriction[i..], UpdateCheck) {
      if i == 6 {
        assert ModelRestriction[i..][1] == 't' != UpdateCheck[1];
      } else {
        assert ModelRestriction[i..][0] == ModelRestriction[i] != 'c' == UpdateCheck[0];
      }
    }
  }

  /** The first of the two passes: wrap every update check. */
  function FirstPass(content: string): string {
    ReplaceAll(content, UpdateCheck, Wrap(UpdateCheck))
  }

  /** The first pass keeps the count of both markers. */
  lemma FirstPassCounts(content: string)
    ensures Count(FirstPass(content), UpdateCheck) == Count(content, UpdateCheck)
    ensures Count(FirstPass(content), ModelRestriction) == Count(content, ModelRestriction)
  {
    MarkersInert();
    MarkersDisjoint();
    CountWrapped(content, UpdateCheck);
    CountPreserved(content, UpdateCheck, ModelRestriction);
  }

  /** The second pass keeps the count of both markers. */
  lemma SecondPassCounts(once: string)
    ensures Count(ReplaceAll(once, ModelRestriction, Wrap(ModelRestriction)), UpdateCheck) == Count(once, UpdateCheck)
    ensures Count(ReplaceAll(once, ModelRestriction, Wrap(ModelRestriction)), ModelRestriction) == Count(once, ModelRestriction)
  {
    MarkersInert();
    MarkersDisjoint();
    CountWrapped(once, ModelRestriction);
    CountPreserved(once, ModelRestriction, UpdateCheck);
  }

  /** A pass over marker `m` adds four characters per occurrence of `m`. */
  lemma PassLength(s: string, m: string)
    requires m != []
    ensures |ReplaceAll(s, m, Wrap(m))| == |s| + 4 * Count(s, m)
  {
    WrapChars(m);
    ReplaceLength(s, m, Wrap(m));
  }

  /** After the first pass, every update check is wrapped. */
  lemma FirstPassWraps(content: string)
    ensures AllWrapped(FirstPass(content), UpdateCheck)
  {
    MarkersInert();
    WrapsEvery(content, UpdateCheck);
  }

  /** The second pass keeps every update check wrapped. */
  lemma SecondPassKeepsWrapped(once: string)
    requires AllWrapped(once, UpdateCheck)
    ensures AllWrapped(ReplaceAll(once, ModelRestriction, Wrap(ModelRestriction)), UpdateCheck)
  {
    MarkersInert();
    MarkersDisjoint();
    NoOverlapNotContained(ModelRestriction, UpdateCheck);
    assert [] + once == once;
    PreservesWrapped([], once, ModelRestriction, UpdateCheck);
    assert [] + ReplaceAll(once, ModelRestriction, Wrap(ModelRestriction)) == ReplaceAll(once, ModelRestriction, Wrap(ModelRestriction));
  }

  /** After the patch, every occurrence of either marker is wrapped as
      `/*marker*/`. */
  lemma PatchWrapsEvery(content: string)
    ensures AllWrapped(Patch(content), UpdateCheck)
    ensures AllWrapped(Patch(content), ModelRestriction)
  {
    MarkersInert();
    FirstPassWraps(content);
    SecondPassKeepsWrapped(FirstPass(content));
    WrapsEvery(FirstPass(content), ModelRestriction);
  }

  /** The patch loses nothing: all other text is kept, in order, so that
      unwrapping the markers gives back the original content. */
  lemma PatchRoundTrip(content: string)
    ensures Unpatch(Patch(content)) == content
  {
    MarkersInert();
    UnwrapRoundTrip(FirstPass(content), ModelRestriction);
    UnwrapRoundTrip(content, UpdateCheck);
  }

  /** The patch keeps the number of occurrences of each marker (each one is
      now inside its wrap). */
  lemma PatchKeepsMarkerCounts(content: string)
    ensures Count(Patch(content), UpdateCheck) == Count(content, UpdateCheck)
    ensures Count(Patch(content), ModelRestriction) == Count(content, ModelRestriction)
  {
    FirstPassCounts(content);
    SecondPassCounts(FirstPass(content));
  }

  /** Each patch adds exactly four characters per marker occurrence. */
  lemma PatchLength(content: string)
    ensures |Patch(content)| == |content| + 4 * (Count(content, UpdateCheck) + Count(content, ModelRestriction))
  {
    PassLength(content, UpdateCheck);
    PassLength(FirstPass(content), ModelRestriction);
    FirstPassCounts(content);
  }

  /** The patch changes the content exactly when a marker occurs in it. */
  lemma PatchUnchangedIff(content: string)
    ensures Patch(content) == content <==> NoMarker(content)
  {
    PatchLength(content);
    CountPositiveIff(content, UpdateCheck);
    CountPositiveIff(content, ModelRestriction);
    if NoMarker(content) {
      ReplaceAbsent(content, UpdateCheck, Wrap(UpdateCheck));
      ReplaceAbsent(content, ModelRestriction, Wrap(ModelRestriction));
    }
  }

  /** There is no guard against wrapping twice: patching patched content
      changes it again whenever the original held a marker. */
  lemma PatchIdempotentIff(content: string)
    ensures Patch(Patch(content)) == Patch(content) <==> NoMarker(content)
  {
    PatchUnchangedIff(Patch(content));
    PatchKeepsMarkerCounts(content);
    CountPositiveIff(content, UpdateCheck);
    CountPositiveIff(content, ModelRestriction);
    CountPositiveIff(Patch(content), UpdateCheck);
    CountPositiveIff(Patch(content), ModelRestriction);
  }

  /** One patch of the bare marker wraps it. */
  lemma PatchMarker()
    ensures Patch(UpdateCheck) == Wrap(UpdateCheck)
  {
    var w := Wrap(UpdateCheck);
    assert UpdateCheck[|UpdateCheck|..] == [];
    assert FirstPass(UpdateCheck) == w;
    ReplaceAbsentShort(w, ModelRestriction, Wrap(ModelRestriction));
  }

  // Past the opening of a wrap, a pass wraps the marker it meets and keeps
  // the closing characters.
  lemma RewrapTail()
    ensures FirstPass(UpdateCheck + "*/") == Wrap(UpdateCheck) + "*/"
  {
    var tail := UpdateCheck + "*/";
    assert tail[..|UpdateCheck|] == UpdateCheck && tail[|UpdateCheck|..] == "*/";
    ReplaceAbsentShort("*/", UpdateCheck, Wrap(UpdateCheck));
  }

  // No update check starts in the two opening characters of a wrapped one.
  lemma RewrapHead()
    ensures forall i :: 0 <= i < 2 ==> !OccursAt("/*" + (UpdateCheck + "*/"), UpdateCheck, i)
  {
    var tail := UpdateCheck + "*/";
    forall i | 0 <= i < |"/*"| ensures !OccursAt("/*" + tail, UpdateCheck, i) {
      assert ("/*" + tail)[i] != 'c' == UpdateCheck[0];
    }
  }

  /** The wrapped marker holds one occurrence of the marker, at index 2,
      which another pass wraps once more. */
  lemma RewrapMarker()
    ensures FirstPass(Wrap(UpdateCheck)) == Wrap(Wrap(UpdateCheck))
  {
    RewrapHead();
    RewrapTail();
    assert Wrap(UpdateCheck) == "/*" + (UpdateCheck + "*/");
    ReplaceSkip("/*", UpdateCheck + "*/", UpdateCheck, Wrap(UpdateCheck));
    assert "/*" + (Wrap(UpdateCheck) + "*/") == Wrap(Wrap(UpdateCheck));
  }

  /** The bare marker and its wrap are both too short to hold the model
      restriction, and a pass over them adds none. */
  lemma RewrapHasNoRestriction()
    ensures !Contains(FirstPass(Wrap(UpdateCheck)), ModelRestriction)
  {
    WrapChars(UpdateCheck);
    FirstPassCounts(Wrap(UpdateCheck));
    assert Count(Wrap(UpdateCheck), ModelRestriction) == 0;
    CountPositiveIff(FirstPass(Wrap(UpdateCheck)), ModelRestriction);
  }

  /** A second run re-wraps: `checkForUpdates` becomes
      `/*checkForUpdates*/` and then `/*/*checkForUpdates*/*/`. */
  lemma RepatchExample()
    ensures Patch(UpdateCheck) == Wrap(UpdateCheck)
    ensures Patch(Patch(UpdateCheck)) == Wrap(Wrap(UpdateCheck))
  {
    PatchMarker();
    RewrapMarker();
    RewrapHasNoRestriction();
    ReplaceAbsent(FirstPass(Wrap(UpdateCheck)), ModelRestriction, Wrap(ModelRestriction));
  }
}
