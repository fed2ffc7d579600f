/**
 * The CAD host (Autodesk Inventor, reached over COM) as plain data.
 *
 * A running application exposes a store of documents keyed by file name.
 * Each document has Inventor's document-type code, its full file name, its
 * property sets (set name -> property name -> value), the mass properties the
 * host may or may not be able to compute, and, for an assembly, its tree of
 * component occurrences.
 */
module Host {

  datatype Option<+T> = None | Some(value: T)

  /** Inventor's kDocumentTypeEnum code of a part document (.ipt). */
  const PartDocumentType: int := 12290
  /** Inventor's kDocumentTypeEnum code of an assembly document (.iam). */
  const AssemblyDocumentType: int := 12291

  /** The property set that holds the identity of a part. */
  const DesignTracking: string := "Design Tracking Properties"
  const PartNumberProperty: string := "Part Number"
  const DescriptionProperty: string := "Description"
  const MassProperty: string := "Mass"

  /** A property value as the host returns it. */
  datatype Value = Text(s: string) | Number(r: real)

  datatype Vec3 = Vec3(x: real, y: real, z: real)

  /**
   * One placement of a component inside an assembly: the type code of the
   * referenced document, that document's full name, and, for a placed
   * sub-assembly, the occurrences inside it.
   */
  datatype Occ = Occ(docType: int, fullName: string, subs: seq<Occ>)

  datatype Doc = Doc(
    docType: int,
    fullFileName: string,
    propertySets: map<string, map<string, Value>>,
    mass: Option<real>,              // None: the host fails to compute the mass
    centerOfMass: Option<Vec3>,      // None: the host fails to compute it
    occurrences: seq<Occ>)           // root occurrences of an assembly

  /** A running Inventor application. */
  datatype HostApp = HostApp(documents: map<string, Doc>)

  /**
   * The typed view `CastTo` gives of an opened document: the assembly
   * interface or the part interface.
   */
  datatype View = AssemblyView(doc: Doc) | PartView(doc: Doc)

  /**
   * `app.Documents.Open(name)`: fails (raises) when there is no application
   * (the attribute access on None fails) or the host cannot open the name.
   */
  function Open(app: Option<HostApp>, name: string): (r: Option<Doc>)
    ensures r.Some? <==> app.Some? && name in app.value.documents
    ensures r.Some? ==> r.value == app.value.documents[name]
  {
    match app
    case None => None
    case Some(host) => if name in host.documents then Some(host.documents[name]) else None
  }

  /**
   * The cast both selection routines perform: the assembly view exactly
   * when the document is an assembly, the part view for every other type.
   */
  function ViewOf(d: Doc): (v: View)
    ensures v.doc == d
    ensures v.AssemblyView? <==> d.docType == AssemblyDocumentType
  {
    if d.docType == AssemblyDocumentType then AssemblyView(d) else PartView(d)
  }

  /**
   * `if not filename: filename = askopenfilename()`: an empty name is
   * replaced by what the user picks in the file dialog (`pick`, itself
   * empty when the dialog is cancelled).
   */
  function DialogOr(filename: string, pick: string): (name: string)
    ensures filename != "" ==> name == filename
    ensures filename == "" ==> name == pick
  {
    if filename == "" then pick else filename
  }
}
