/**
 * The edit-mode context of contexts/EditContext.tsx: two flags, whether the
 * page is in edit mode and whether it holds unsaved changes.
 */
module Edit {

  class EditContext {
    var isEditMode: bool
    var hasUnsavedChanges: bool

    /** Both flags start false. */
    constructor ()
      ensures !isEditMode && !hasUnsavedChanges
    {
      isEditMode := false;
      hasUnsavedChanges := false;
    }

    /** `enableEditMode`: leaves the unsaved flag alone. */
    method EnableEditMode()
      modifies this`isEditMode
      ensures isEditMode
      ensures hasUnsavedChanges == old(hasUnsavedChanges)
    {
      isEditMode := true;
    }

    /** `disableEditMode`: clears both flags, whatever they were (so twice is once). */
    method DisableEditMode()
      modifies this`isEditMode, this`hasUnsavedChanges
      ensures !isEditMode && !hasUnsavedChanges
    {
      isEditMode := false;
      hasUnsavedChanges := false;
    }

    /** `setHasUnsavedChanges`: changes only the unsaved flag. */
    method SetHasUnsavedChanges(value: bool)
      modifies this`hasUnsavedChanges
      ensures hasUnsavedChanges == value
      ensures isEditMode == old(isEditMode)
    {
      hasUnsavedChanges := value;
    }
  }
}
