/** The settings dialog's theme editor: the theme key the player has picked
    and the three colours being edited, with the dialog's transitions. */
module Settings {
  import opened Themes

  datatype Option<T> = None | Some(value: T)

  datatype Dialog = Dialog(selected: string, colors: Colors)

  datatype ColorKey = Primary | Secondary | Accent

  function Get(c: Colors, k: ColorKey): string {
    match k
    case Primary => c.primary
    case Secondary => c.secondary
    case Accent => c.accent
  }

  /** Opening the dialog (and its first render) starts from the current
      theme: its lower-cased name as the selection and its three colours. */
  function Open(current: Theme): (d: Dialog)
    ensures d.colors == ColorsOf(current)
    ensures |d.selected| == |current.name|
    ensures forall i :: 0 <= i < |d.selected| ==> d.selected[i] == LowerChar(current.name[i])
  {
    Dialog(Lower(current.name), ColorsOf(current))
  }

  /** Picking a tile of the table: a predefined theme also loads its colours
      into the editor; picking the custom tile keeps the edited colours. */
  function ChooseTheme(d: Dialog, key: string): (r: Dialog)
    requires key in Predefined
    ensures r.selected == key
    ensures key != CustomKey ==> r.colors == ColorsOf(Predefined[key])
    ensures key == CustomKey ==> r.colors == d.colors
  {
    if key != CustomKey then Dialog(key, ColorsOf(Predefined[key]))
    else d.(selected := key)
  }

  /** Editing one colour: that colour takes the new value, the other two are
      kept, and the selection switches to the custom theme. */
  function EditColor(d: Dialog, k: ColorKey, value: string): (r: Dialog)
    ensures r.selected == CustomKey
    ensures Get(r.colors, k) == value
    ensures forall k' :: k' != k ==> Get(r.colors, k') == Get(d.colors, k')
  {
    var c := match k
      case Primary => d.colors.(primary := value)
      case Secondary => d.colors.(secondary := value)
      case Accent => d.colors.(accent := value);
    Dialog(CustomKey, c)
  }

  /** The theme the apply button installs. For the custom selection it is
      the custom entry with the edited colours; otherwise the table's entry
      as is. A selection the table lacks yields no theme. */
  function Apply(d: Dialog): (r: Option<Theme>)
    ensures d.selected == CustomKey ==> r == Some(WithColors(Predefined[CustomKey], d.colors))
    ensures d.selected != CustomKey && d.selected in Predefined ==> r == Some(Predefined[d.selected])
    ensures d.selected !in Predefined ==> r == None
  {
    if d.selected == CustomKey then
      Some(WithColors(Predefined[CustomKey], d.colors))
    else if d.selected in Predefined then Some(Predefined[d.selected])
    else None
  }
}
