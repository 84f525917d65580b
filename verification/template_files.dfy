/**
 * How the framework sorts the files of its template and asset trees by path: templates (and
 * among them shared ones, partials, layouts and pages), template modules, and built assets.
 */
module TemplateFiles {
  import opened GoStrings

  const TemplateFileExt := ".tmpl"
  const PartialTemplateFileExt := ".partial" + TemplateFileExt
  const LayoutTemplateFileExt := ".layout" + TemplateFileExt
  const TemplateSharedModule := "shared"

  predicate FilterTemplate(path: string) {
    HasSuffix(path, TemplateFileExt)
  }

  predicate FilterSharedTemplate(path: string) {
    FilterTemplate(path) && HasPrefix(path, TemplateSharedModule + "/")
  }

  predicate FilterPartialTemplate(path: string) {
    HasSuffix(path, PartialTemplateFileExt)
  }

  predicate FilterLayoutTemplate(path: string) {
    HasSuffix(path, LayoutTemplateFileExt)
  }

  predicate FilterNonpageTemplate(path: string) {
    FilterPartialTemplate(path) || FilterLayoutTemplate(path)
  }

  /** A page is any template that is neither a partial nor a layout (not only `.page.tmpl`). */
  predicate FilterPageTemplate(path: string) {
    FilterTemplate(path) && !FilterNonpageTemplate(path)
  }

  predicate FilterTemplateModule(path: string) {
    path != TemplateSharedModule
  }

  predicate FilterCSSAsset(path: string) {
    HasSuffix(path, ".css")
  }

  predicate FilterJSAsset(path: string) {
    HasSuffix(path, ".js")
  }

  predicate FilterAsset(path: string) {
    FilterCSSAsset(path) || FilterJSAsset(path)
  }

  /** A string with a suffix has every suffix of that suffix too. */
  lemma SuffixOfSuffix(path: string, suffix: string, tail: string)
    requires HasSuffix(path, suffix) && HasSuffix(suffix, tail)
    ensures HasSuffix(path, tail)
  {
    assert path[|path| - |tail|..] == path[|path| - |suffix|..][|suffix| - |tail|..];
  }

  /**
   * Every template is exactly one of a page and a non-page (partial or layout), and every
   * partial, layout and shared template is a template.
   */
  lemma TemplateClasses(path: string)
    ensures FilterNonpageTemplate(path) ==> FilterTemplate(path)
    ensures FilterSharedTemplate(path) ==> FilterTemplate(path)
    ensures FilterTemplate(path) <==> FilterPageTemplate(path) || FilterNonpageTemplate(path)
    ensures !(FilterPageTemplate(path) && FilterNonpageTemplate(path))
  {
    if FilterPartialTemplate(path) {
      SuffixOfSuffix(path, PartialTemplateFileExt, TemplateFileExt);
    }
    if FilterLayoutTemplate(path) {
      SuffixOfSuffix(path, LayoutTemplateFileExt, TemplateFileExt);
    }
  }

  /** No path is both a partial and a layout, nor both a template and an asset, nor both a stylesheet and a script. */
  lemma ClassesDisjoint(path: string)
    ensures !(FilterPartialTemplate(path) && FilterLayoutTemplate(path))
    ensures !(FilterTemplate(path) && FilterAsset(path))
    ensures !(FilterCSSAsset(path) && FilterJSAsset(path))
  {
    assert FilterPartialTemplate(path) ==> path[|path| - 7] == 'a';
    assert FilterLayoutTemplate(path) ==> path[|path| - 7] == 'u';
    if FilterTemplate(path) {
      assert path[|path| - 1] == 'l';
    }
    if FilterCSSAsset(path) {
      assert path[|path| - 3] == 'c';
    }
  }
}
