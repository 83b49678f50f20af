/** The theme controller: a day/night palette swap on two colour tokens. */
module Theme {
  import opened Dom

  /** The values of `--color-dark` and `--color-light`. */
  datatype Palette = Palette(dark: string, light: string)

  const WHITE := "255, 255, 255"
  const INK := "10, 10, 20"

  /** `applyTheme`'s choice: `night` puts white on the dark token and ink on
      the light one; every other value, not only `day`, puts them the other way. */
  function PaletteFor(theme: string): (p: Palette)
    ensures p == Palette(WHITE, INK) <==> theme == "night"
    ensures p == Palette(INK, WHITE) <==> theme != "night"
  {
    if theme == "night" then Palette(WHITE, INK) else Palette(INK, WHITE)
  }

  /** `initTheme`'s choice from the dark colour-scheme preference. */
  function PreferredTheme(prefersDark: bool): (theme: string)
    ensures theme == "night" <==> prefersDark
    ensures theme == "night" || theme == "day"
  {
    if prefersDark then "night" else "day"
  }

  class ThemeManager {
    const doc: Document

    /** `new ThemeManager()`: runs `initTheme`, then wires the settings form. */
    constructor (doc: Document, prefersDark: bool)
      modifies doc`colorDark, doc`colorLight, doc`settingsTheme
      ensures this.doc == doc
      ensures Palette(doc.colorDark, doc.colorLight) == PaletteFor(PreferredTheme(prefersDark))
      ensures doc.settingsTheme == PreferredTheme(prefersDark)
    {
      this.doc := doc;
      new;
      InitTheme(prefersDark);
    }

    /** `applyTheme(theme)`: writes the two colour tokens. */
    method ApplyTheme(theme: string)
      modifies doc`colorDark, doc`colorLight
      ensures Palette(doc.colorDark, doc.colorLight) == PaletteFor(theme)
    {
      if theme == "night" {
        doc.colorDark := WHITE;
        doc.colorLight := INK;
      } else {
        doc.colorDark := INK;
        doc.colorLight := WHITE;
      }
    }

    /** `initTheme`: applies `night` exactly when a dark scheme is preferred,
        and shows the same value in the settings form. */
    method InitTheme(prefersDark: bool)
      modifies doc`colorDark, doc`colorLight, doc`settingsTheme
      ensures Palette(doc.colorDark, doc.colorLight) == PaletteFor(PreferredTheme(prefersDark))
      ensures doc.settingsTheme == PreferredTheme(prefersDark)
    {
      var preferedTheme := if prefersDark then "night" else "day";
      ApplyTheme(preferedTheme);
      doc.settingsTheme := preferedTheme;
    }

    /** The settings form's submit handler: applies the submitted theme and
        closes the settings overlay. */
    method OnSettingsSubmit(theme: string)
      modifies doc`colorDark, doc`colorLight, doc`settingsOpen
      ensures Palette(doc.colorDark, doc.colorLight) == PaletteFor(theme)
      ensures !doc.settingsOpen
    {
      ApplyTheme(theme);
      doc.settingsOpen := false;
    }
  }
}
