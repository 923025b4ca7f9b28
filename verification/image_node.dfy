/** The custom image node: a decorator leaf carrying `src` and `alt`, its
    JSON form `{type: "image", version: 1, src, alt}`, and the framework hooks
    (`getType`, `clone`, `importJSON`, `exportJSON`, `updateDOM`). The same
    class is declared in three files; this is the one model of all of them. */
module ImageNodes {
  import opened Common

  type NodeKey = string

  const ImageType: string := "image"
  const DefaultAlt: string := "Image"

  datatype ImageNode = ImageNode(src: string, alt: string, key: NodeKey)

  /** A serialised image as it appears in a saved editor state. `alt` is
      optional because destructuring a JSON object without that field yields
      `undefined`, which the constructor then replaces by its default. */
  datatype SerializedImage = SerializedImage(nodeType: string, version: int, src: string, alt: Option<string>)

  /** `new ImageNode(src, alt?, key?)`. An omitted key means the framework
      assigns a fresh one, supplied here as `freshKey`. */
  function NewImageNode(src: string, alt: Option<string>, key: Option<NodeKey>, freshKey: NodeKey): (n: ImageNode)
    ensures n.src == src
    ensures alt.None? ==> n.alt == "Image"
    ensures alt.Some? ==> n.alt == alt.value
    ensures key.Some? ==> n.key == key.value
    ensures key.None? ==> n.key == freshKey
  {
    ImageNode(src, alt.GetOr(DefaultAlt), key.GetOr(freshKey))
  }

  /** `$createImageNode(src, alt?)`: never passes a key. */
  function CreateImageNode(src: string, alt: Option<string>, freshKey: NodeKey): (n: ImageNode)
    ensures n == ImageNode(src, if alt.Some? then alt.value else "Image", freshKey)
  {
    NewImageNode(src, alt, None, freshKey)
  }

  /** `ImageNode.getType()`. */
  function GetType(): (t: string)
    ensures t == "image"
  {
    ImageType
  }

  /** `ImageNode.clone(node)`: same source, alt text and key. */
  function Clone(n: ImageNode, freshKey: NodeKey): (c: ImageNode)
    ensures c == n
  {
    NewImageNode(n.src, Some(n.alt), Some(n.key), freshKey)
  }

  /** `node.exportJSON()`. */
  function ExportJson(n: ImageNode): (j: SerializedImage)
    ensures j.nodeType == GetType() && j.version == 1
    ensures j.src == n.src && j.alt == Some(n.alt)
  {
    SerializedImage(ImageType, 1, n.src, Some(n.alt))
  }

  /** `ImageNode.importJSON(json)`: reads `src` and `alt` only; the node gets a
      fresh key. */
  function ImportJson(j: SerializedImage, freshKey: NodeKey): (n: ImageNode)
    ensures n.src == j.src && n.key == freshKey
    ensures n.alt == j.alt.GetOr("Image")
  {
    NewImageNode(j.src, j.alt, None, freshKey)
  }

  /** `node.updateDOM()`: the DOM of an image node is never patched in place. */
  function UpdateDom(prev: ImageNode, next: ImageNode): (patched: bool)
    ensures !patched
  {
    false
  }

  /** Importing an exported node restores its source and alt text. */
  lemma ImportExportRoundTrip(n: ImageNode, freshKey: NodeKey)
    ensures ImportJson(ExportJson(n), freshKey) == n.(key := freshKey)
  {
  }

  /** Exporting an imported, well-formed record gives the record back. */
  lemma ExportImportRoundTrip(j: SerializedImage, freshKey: NodeKey)
    requires j.nodeType == "image" && j.version == 1 && j.alt.Some?
    ensures ExportJson(ImportJson(j, freshKey)) == j
  {
  }

  /** A record written without `alt` comes back with the default alt text. */
  lemma MissingAltDefaults(src: string, freshKey: NodeKey)
    ensures ImportJson(SerializedImage("image", 1, src, None), freshKey).alt == "Image"
    ensures ExportJson(ImportJson(SerializedImage("image", 1, src, None), freshKey)).alt == Some("Image")
  {
  }
}
