/** The framework's validation rule the controllers rely on. */
module Laravel {
  import opened Strings
  import Php

  /** The `required` rule on a string field: present, and not blank after
      PHP's `trim`. */
  predicate Required(v: Option<string>) {
    v.Some? && Php.Trim(v.value) != ""
  }

  /** A field passes `required` exactly when it holds a character that
      `trim` does not strip; in particular "0" passes, unlike PHP's
      `empty`. */
  lemma RequiredIff(v: Option<string>)
    ensures Required(v) <==> v.Some? && exists i :: 0 <= i < |v.value| && !Php.IsTrimChar(v.value[i])
    ensures Required(Some("0"))
  {
    if v.Some? {
      TrimEmptyIff(v.value, Php.IsTrimChar);
    }
    Php.TrimKeeps("0");
  }
}
