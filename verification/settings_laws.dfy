/** Properties of the settings dialog that relate its transitions. */
module SettingsLaws {
  import opened Themes
  import opened Settings

  /** Picking a predefined theme and applying installs exactly that entry. */
  lemma ChooseThenApply(d: Dialog, key: string)
    requires key in Predefined && key != CustomKey
    ensures Apply(ChooseTheme(d, key)) == Some(Predefined[key])
  {
  }

  /** Editing a colour and applying installs the custom entry's name,
      description and backgrounds with the edited colours. */
  lemma EditThenApply(d: Dialog, k: ColorKey, value: string)
    ensures var t := Apply(EditColor(d, k, value));
      && t.Some?
      && t.value.name == Predefined[CustomKey].name
      && t.value.description == Predefined[CustomKey].description
      && t.value.background == Predefined[CustomKey].background
      && t.value.darkBackground == Predefined[CustomKey].darkBackground
      && Get(ColorsOf(t.value), k) == value
      && (forall k' :: k' != k ==> Get(ColorsOf(t.value), k') == Get(d.colors, k'))
  {
  }

  /** A second edit of the same colour overrides the first. */
  lemma EditTwiceLastWins(d: Dialog, k: ColorKey, v1: string, v2: string)
    ensures EditColor(EditColor(d, k, v1), k, v2) == EditColor(d, k, v2)
  {
  }

  /** Edits of different colours commute. */
  lemma EditsCommute(d: Dialog, k1: ColorKey, v1: string, k2: ColorKey, v2: string)
    requires k1 != k2
    ensures EditColor(EditColor(d, k1, v1), k2, v2) == EditColor(EditColor(d, k2, v2), k1, v1)
  {
  }

  /** Picking the same tile twice is picking it once. */
  lemma ChooseIdempotent(d: Dialog, key: string)
    requires key in Predefined
    ensures ChooseTheme(ChooseTheme(d, key), key) == ChooseTheme(d, key)
  {
  }

  /** A dialog whose selection is in the table and whose colours, unless
      custom, are the selected entry's: what opening on a table theme,
      picking and editing produce. */
  predicate Consistent(d: Dialog) {
    && d.selected in Predefined
    && (d.selected != CustomKey ==> d.colors == ColorsOf(Predefined[d.selected]))
  }

  lemma TransitionsKeepConsistent(d: Dialog, key: string, k: ColorKey, value: string)
    requires key in Predefined
    ensures Consistent(ChooseTheme(d, key))
    ensures Consistent(EditColor(d, k, value))
  {
  }

  /** Opening the dialog on a table theme and applying at once reinstalls
      that theme unchanged. */
  lemma OpenThenApply(key: string)
    requires key in Predefined
    ensures Consistent(Open(Predefined[key]))
    ensures Apply(Open(Predefined[key])) == Some(Predefined[key])
  {
    NamesAreKeys(key);
  }

  /** Applying and reopening restores the dialog exactly. */
  lemma ApplyThenOpen(d: Dialog)
    requires Consistent(d)
    ensures Apply(d).Some?
    ensures Open(Apply(d).value) == d
  {
    NamesAreKeys(d.selected);
    if d.selected == CustomKey {
      NamesAreKeys(CustomKey);
    }
  }
}
