/** The parts of the page the script reads and writes. */
module Dom {
  import opened Catalog

  /** The "show more" button: the count in its label and its `disabled` flag. */
  datatype ShowMoreButton = ShowMoreButton(remaining: int, disabled: bool)

  /** An `<option>` of a search dropdown. */
  datatype SelectOption = SelectOption(value: string, text: string)

  class Document {
    /** The previews in the `[data-list-items]` container, in order. */
    var listItems: seq<Book>
    /** The `[data-list-button]` control. */
    var button: ShowMoreButton
    /** Whether `[data-list-message]` carries `list__message_show`. */
    var listMessage: bool
    /** The book whose image, title, subtitle and description fill the
        `[data-list-active]` overlay, once it has been opened. */
    var detail: Option<Book>
    /** The options of `[data-search-genres]` and `[data-search-authors]`. */
    var genreOptions: seq<SelectOption>
    var authorOptions: seq<SelectOption>
    /** The `--color-dark` and `--color-light` custom properties. */
    var colorDark: string
    var colorLight: string
    /** The value of the `[data-settings-theme]` field. */
    var settingsTheme: string
    /** Whether the search and settings overlays are open. */
    var searchOpen: bool
    var settingsOpen: bool

    /** The page as loaded, before the script runs. */
    constructor ()
      ensures listItems == [] && button == ShowMoreButton(0, false) && !listMessage
      ensures detail == None && genreOptions == [] && authorOptions == []
      ensures colorDark == "" && colorLight == "" && settingsTheme == ""
      ensures !searchOpen && !settingsOpen
    {
      listItems := [];
      button := ShowMoreButton(0, false);
      listMessage := false;
      detail := None;
      genreOptions := [];
      authorOptions := [];
      colorDark := "";
      colorLight := "";
      settingsTheme := "";
      searchOpen := false;
      settingsOpen := false;
    }
  }
}
