/** app/index.tsx: the home screen's form. Three state cells, `text`, `file` and `isFormValid`,
    are changed by the text box's change handler and by the file picker. */
module HomeForm {
  import opened Wrappers
  import Text

  /** The document-picker asset that `FileUploader` hands to `onFileSelect` (its first asset). */
  datatype Asset = Asset(uri: string, name: string)

  /** Line 16: the validity test, on the raw input and the file held at that moment. It holds
      exactly when some character of the input is not white space, or a file is held. */
  predicate Valid(input: string, file: Option<Asset>)
    ensures Valid(input, file) <==> (exists i :: 0 <= i < |input| && !Text.IsJsWhiteSpace(input[i])) || file.Some?
  {
    Text.Trim(input) != "" || file.Some?
  }

  class Form {
    var text: string
    var file: Option<Asset>
    var isFormValid: bool

    /** Lines 9-11: empty text, no file, not valid. */
    constructor ()
      ensures text == "" && file == None && !isFormValid
    {
      text := "";
      file := None;
      isFormValid := false;
    }

    /** Line 31: the submit button is disabled exactly when the form is not valid. */
    predicate SubmitDisabled()
      reads this
    {
      !isFormValid
    }

    /** Lines 13-18: `handleUrlInput`. The raw input is stored untrimmed; validity is recomputed from
        it and from the file held now; the file is untouched. */
    method HandleUrlInput(input: string)
      modifies this
      ensures text == input && file == old(file)
      ensures isFormValid == Valid(input, file)
    {
      text := input;
      isFormValid := Text.Trim(input) != "" || file != None;
    }

    /** Line 30: `onFileSelect={setFile}`. Only `file` changes: validity is not recomputed. */
    method SelectFile(asset: Asset)
      modifies this
      ensures file == Some(asset) && text == old(text) && isFormValid == old(isFormValid)
    {
      file := Some(asset);
    }

    /** Lines 20-23: `handleSubmit` only logs `text` and `file`; it changes no state. */
    method HandleSubmit()
      ensures unchanged(this)
    {
    }
  }

  /** Picking a file on a fresh form leaves submit disabled, because validity is only
      recomputed on a text change. */
  method PickFileOnFreshForm(asset: Asset) returns (disabled: bool)
    ensures disabled
  {
    var form := new Form();
    form.SelectFile(asset);
    disabled := form.SubmitDisabled();
  }

  /** Once a file is held, any text change, even to blank text, enables submit. */
  method TypeAfterPickingFile(asset: Asset, input: string) returns (disabled: bool)
    ensures !disabled
  {
    var form := new Form();
    form.SelectFile(asset);
    form.HandleUrlInput(input);
    disabled := form.SubmitDisabled();
  }

  /** Without a file, a text change enables submit exactly when the input has a character that is not
      white space. */
  method TypeOnFreshForm(input: string) returns (disabled: bool)
    ensures disabled <==> forall i :: 0 <= i < |input| ==> Text.IsJsWhiteSpace(input[i])
  {
    var form := new Form();
    form.HandleUrlInput(input);
    disabled := form.SubmitDisabled();
  }
}
