/** The part of a cssutils style sheet that the CSS analyser reads
    (analyseCss.py). Parsing is not modelled: a parsed file is given as its list
    of top-level rules, each style rule with its children in source order. */
module CssSheet {
  import opened Common

  /** A child of a style rule's declaration block (`style.children()`): a
      comment, or a property with its name, its value and its `cssText`. */
  datatype Child =
    | Comment(text: string)
    | Property(name: string, value: string, text: string)

  /** A top-level rule of a sheet (`sheet.cssRules`); `OtherRule` stands for
      every rule type the analyser ignores (`@media`, `@import`, ...). */
  datatype Rule =
    | CommentRule(text: string)
    | StyleRule(selector: string, children: seq<Child>)
    | OtherRule

  /** `(property.name, property.value)` */
  datatype Declaration = Declaration(name: string, value: string)

  /** One flattened property: `PropertyInfo(cssFilename, selector, property, value)`. */
  datatype PropertyInfo = PropertyInfo(cssFilename: string, selector: string, property: string, value: string)

  predicate IsProperty(c: Child) {
    c.Property?
  }

  predicate IsStyleRule(r: Rule) {
    r.StyleRule?
  }

  function DeclarationOf(c: Child): Declaration {
    if c.Property? then Declaration(c.name, c.value) else Declaration("", "")
  }

  /** `style.getProperties(all=True)`: the properties of a style rule, in
      order, repeats included and comments left out. */
  function Declarations(r: Rule): seq<Declaration> {
    if r.StyleRule? then Map(Filter(r.children, IsProperty), DeclarationOf) else []
  }

  /** `sheet.cssRules.rulesOfType(STYLE_RULE)` */
  function StyleRules(sheet: seq<Rule>): seq<Rule> {
    Filter(sheet, IsStyleRule)
  }

  /** `styleRule.selectorText` */
  function SelectorText(r: Rule): string {
    if r.StyleRule? then r.selector else ""
  }
}
