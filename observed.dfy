/**
 * Which attribute names a tag's `_update_proxy` observer is registered for.
 * Every tag observes the base names declared on `Tag`; about twenty subclasses
 * re-register the observer with extra names of their own. All other subclasses
 * (Div, Span, Body, Bdo, ...) observe no extra name and are `Plain`; some of them
 * still declare members of their own that nobody observes (`Bdo` declares `dir`).
 */
module Observed {

  /**
   * A tag class, by its class name, the names it observes beyond `Tag`'s, and
   * whether it is `Html` or a subclass of it (an `enamldef Page(Html)` document).
   */
  datatype TagClass = TagClass(name: string, extra: set<string>, html: bool)

  /** The names observed on `Tag` itself. */
  function BaseNames(): set<string> {
    {"id", "tag", "cls", "style", "text", "tail", "alt", "attrs",
     "onclick", "clickable", "ondragstart", "ondragover", "ondrop", "draggable"}
  }

  function ObservedNames(c: TagClass): set<string> {
    BaseNames() + c.extra
  }

  /** A subclass, by class name, that re-registers no observer and so observes the base names alone. */
  function Plain(name: string): TagClass {
    TagClass(name, {}, false)
  }

  const Html: TagClass := TagClass("Html", {}, true)
  const A: TagClass := TagClass("A", {"href", "target"}, false)
  const Blockquote: TagClass := TagClass("Blockquote", {"cite"}, false)
  const Img: TagClass := TagClass("Img", {"src", "width", "height"}, false)
  const Link: TagClass := TagClass("Link", {"type", "rel", "href", "media"}, false)
  const MapTag: TagClass := TagClass("Map", {"name"}, false)
  const Area: TagClass := TagClass("Area", {"shape", "coords", "href"}, false)
  const Td: TagClass := TagClass("Td", {"colspan", "rowspan"}, false)
  const Th: TagClass := TagClass("Th", {"colspan", "rowspan"}, false)
  const Ol: TagClass := TagClass("Ol", {"type"}, false)
  const IFrame: TagClass := TagClass("IFrame", {"src", "height", "width", "target"}, false)
  const Script: TagClass := TagClass("Script", {"type", "src"}, false)
  const Meta: TagClass := TagClass("Meta", {"name", "content"}, false)
  const Base: TagClass := TagClass("Base", {"href", "target"}, false)
  const Form: TagClass := TagClass("Form", {"action", "method"}, false)
  const Select: TagClass := TagClass("Select", {"name", "value"}, false)
  const OptionTag: TagClass := TagClass("Option", {"value", "selected"}, false)
  const OptGroup: TagClass := TagClass("OptGroup", {"label", "disabled"}, false)
  const Input: TagClass := TagClass("Input", {"name", "type", "disabled", "checked", "value", "placeholder"}, false)
  const Textarea: TagClass := TagClass("Textarea", {"name", "rows", "cols"}, false)
  const Button: TagClass := TagClass("Button", {"type"}, false)
  const Video: TagClass := TagClass("Video", {"controls"}, false)
  const Source: TagClass := TagClass("Source", {"src", "type"}, false)
  const Bdo: TagClass := Plain("Bdo")

  /**
   * Every class observes the base names (so every tag's `id` is observed); `Button`
   * declares `name` and `value` but observes only `type`; `Bdo` declares `dir` and
   * observes nothing beyond the base; `Html` observes exactly the base names.
   */
  lemma ObservedNamesFacts(c: TagClass)
    ensures BaseNames() <= ObservedNames(c) && "id" in ObservedNames(c)
    ensures ObservedNames(Button) - BaseNames() == {"type"}
    ensures "name" !in ObservedNames(Button) && "value" !in ObservedNames(Button)
    ensures "dir" !in ObservedNames(Bdo)
    ensures ObservedNames(Html) == BaseNames()
    ensures Html.html && !Plain(c.name).html && !Button.html
  {
  }
}
