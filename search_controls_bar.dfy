/** The Save button of the search controls (src/components/SearchControlsBar.tsx): its label,
    when it is disabled, and when its click handlers reach the app. */
module SearchControlsBar {
  import opened Wrappers
  import opened Text

  /** `Boolean(currentSavedId)`: a saved id is present and not the empty string. */
  predicate HasExisting(savedId: Option<string>) {
    savedId.Some? && savedId.value != ""
  }

  /** `saveLabel`. */
  function SaveLabel(savedId: Option<string>, isDirty: bool): (r: string)
    ensures r == "Save" <==> !HasExisting(savedId)
    ensures r == "Save changes" <==> HasExisting(savedId) && isDirty
    ensures r == "Saved" <==> HasExisting(savedId) && !isDirty
  {
    LabelsDiffer();
    if !HasExisting(savedId) then "Save" else if isDirty then "Save changes" else "Saved"
  }

  lemma LabelsDiffer()
    ensures "Save" != "Save changes" && "Save" != "Saved" && "Save changes" != "Saved"
  {
    assert |"Save"| == 4 && |"Saved"| == 5 && |"Save changes"| == 12;
  }

  /** `isSaveDisabled`. */
  predicate IsSaveDisabled(hasContent: bool, name: string, savedId: Option<string>, isDirty: bool) {
    !hasContent || Trim(name) == "" || (HasExisting(savedId) && !isDirty)
  }

  /** `handleSaveClick`: whether `onSave` is called. */
  function SaveClickFires(hasContent: bool, name: string, savedId: Option<string>, isDirty: bool): (fires: bool)
    ensures fires <==> hasContent && !IsBlank(name) && (!HasExisting(savedId) || isDirty)
  {
    TrimEmptyIffBlank(name);
    !IsSaveDisabled(hasContent, name, savedId, isDirty)
  }

  /** `handleSaveAsNewClick`: whether `onSaveAsNew` is called. It returns early without content
      or without a saved search, and calls the handler otherwise. */
  function SaveAsNewFires(hasContent: bool, savedId: Option<string>): (fires: bool)
    ensures fires <==> hasContent && HasExisting(savedId)
  {
    !(!hasContent || !HasExisting(savedId))
  }

  /** The "Save as new" button is shown only for a saved search and disabled without content, so
      clicking it when it is shown and enabled always calls the handler. */
  lemma SaveAsNewWhenEnabled(hasContent: bool, savedId: Option<string>)
    ensures HasExisting(savedId) && !SaveAsNewDisabled(hasContent) ==> SaveAsNewFires(hasContent, savedId)
    ensures !HasExisting(savedId) || SaveAsNewDisabled(hasContent) ==> !SaveAsNewFires(hasContent, savedId)
  {
  }

  /** `disabled={!hasContent}` on the "Save as new" button. */
  predicate SaveAsNewDisabled(hasContent: bool) {
    !hasContent
  }

  /** A button labelled "Saved" is always disabled, and an enabled Save button means there is
      content and a non-blank name. */
  lemma SaveButtonConsistent(hasContent: bool, name: string, savedId: Option<string>, isDirty: bool)
    ensures SaveLabel(savedId, isDirty) == "Saved" ==> IsSaveDisabled(hasContent, name, savedId, isDirty)
    ensures !IsSaveDisabled(hasContent, name, savedId, isDirty) ==> hasContent && !IsBlank(name)
    ensures SaveClickFires(hasContent, name, savedId, isDirty) <==> !IsSaveDisabled(hasContent, name, savedId, isDirty)
  {
    TrimEmptyIffBlank(name);
  }
}
