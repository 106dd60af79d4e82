/** What the generator computes, as functions on the interface tables. */
module GeneratorSpec {
  import opened Wrappers
  import opened RustInts
  import opened ITypes
  import opened SdkAst
  import opened ItAst
  import opened ExportApi
  import opened RecordTable
  import opened RecordValidation
  import opened Adapters

  const HOST_NAMESPACE_V0 := "host"
  const HOST_NAMESPACE_PREFIX := "__marine_host_api_v"

  predicate IsHostImport(namespace: string) {
    namespace == HOST_NAMESPACE_V0 || HOST_NAMESPACE_PREFIX <= namespace
  }

  function LinkNameOf(fn: ExternFn): string {
    if fn.linkName.Renamed? then fn.linkName.name else fn.signature.name
  }

  // ----- Exported functions -----

  /** Two copies of the signature: one for the adapter, one for the core function. */
  function ExportTypes(ids: map<string, nat>, interfaces: Interfaces, signature: FnSignature): Option<Interfaces> {
    match (ItArgs(signature.arguments, ids), ItOutputs(signature.outputTypes, ids))
    case (Some(arguments), Some(outputs)) =>
      var types := interfaces.types + [AstType.Function(arguments, outputs)] + [AstType.Function(arguments, outputs)];
      Some(interfaces.(types := types, exports := interfaces.exports + [Export(signature.name, |types| - 1)]))
    case _ => None
  }

  function ExportInstructions(ids: map<string, nat>, interfaces: Interfaces, signature: FnSignature): Option<Interfaces>
    requires |interfaces.types| >= 2 && |interfaces.exports| >= 1
  {
    match ExportCode(signature, |interfaces.exports| - 1, ids)
    case None => None
    case Some(code) =>
      var adapterIdx, exportIdx := |interfaces.types| - 2, |interfaces.types| - 1;
      Some(interfaces.(adapters := interfaces.adapters + [Adapter(adapterIdx, code)],
                       implementations := interfaces.implementations + [Implementation(exportIdx, adapterIdx)]))
  }

  function AddFunction(ids: map<string, nat>, interfaces: Interfaces, signature: FnSignature): Option<Interfaces> {
    match ExportTypes(ids, interfaces, signature)
    case None => None
    case Some(typed) => ExportInstructions(ids, typed, signature)
  }

  function AddFunctions(ids: map<string, nat>, interfaces: Interfaces, fns: seq<FnSignature>): Option<Interfaces>
    decreases |fns|
  {
    if fns == [] then Some(interfaces)
    else
      match AddFunction(ids, interfaces, fns[0])
      case None => None
      case Some(next) => AddFunctions(ids, next, fns[1..])
  }

  // ----- Imported functions -----

  /** One interface-level signature and two raw ones; the import is listed for the first and the last. */
  function ImportTypes(ids: map<string, nat>, interfaces: Interfaces, namespace: string, fn: ExternFn): Option<Interfaces> {
    match (ItArgs(fn.signature.arguments, ids), ItOutputs(fn.signature.outputTypes, ids))
    case (Some(arguments), Some(outputs)) =>
      var raw := AstType.Function(RawArgs(fn.signature.arguments), RawOutputs(fn.signature.outputTypes));
      var types := interfaces.types + [AstType.Function(arguments, outputs)] + [raw] + [raw];
      var importIdx, rawImportIdx := |types| - 3, |types| - 1;
      Some(interfaces.(types := types,
                       imports := interfaces.imports + [Import(namespace, LinkNameOf(fn), importIdx)]
                                                     + [Import(namespace, LinkNameOf(fn), rawImportIdx)]))
    case _ => None
  }

  function ImportInstructions(ids: map<string, nat>, interfaces: Interfaces, fn: ExternFn): Option<Interfaces>
    requires |interfaces.types| >= 2 && |interfaces.exports| + |interfaces.imports| / 2 >= 1
  {
    match ImportCode(fn.signature, |interfaces.exports| + |interfaces.imports| / 2 - 1, ids)
    case None => None
    case Some(code) =>
      var adapterIdx, rawImportIdx := |interfaces.types| - 2, |interfaces.types| - 1;
      Some(interfaces.(adapters := interfaces.adapters + [Adapter(adapterIdx, code)],
                       implementations := interfaces.implementations + [Implementation(rawImportIdx, adapterIdx)]))
  }

  function AddImport(ids: map<string, nat>, interfaces: Interfaces, namespace: string, fn: ExternFn): Option<Interfaces> {
    match ImportTypes(ids, interfaces, namespace, fn)
    case None => None
    case Some(typed) => ImportInstructions(ids, typed, fn)
  }

  function AddImports(ids: map<string, nat>, interfaces: Interfaces, namespace: string, fns: seq<ExternFn>): Option<Interfaces>
    decreases |fns|
  {
    if fns == [] then Some(interfaces)
    else
      match AddImport(ids, interfaces, namespace, fns[0])
      case None => None
      case Some(next) => AddImports(ids, next, namespace, fns[1..])
  }

  function AddExternMod(ids: map<string, nat>, interfaces: Interfaces, extern: ExternMod): Option<Interfaces> {
    if IsHostImport(extern.namespace) then Some(interfaces)
    else AddImports(ids, interfaces, extern.namespace, extern.imports)
  }

  function AddExternMods(ids: map<string, nat>, interfaces: Interfaces, mods: seq<ExternMod>): Option<Interfaces>
    decreases |mods|
  {
    if mods == [] then Some(interfaces)
    else
      match AddExternMod(ids, interfaces, mods[0])
      case None => None
      case Some(next) => AddExternMods(ids, next, mods[1..])
  }

  // ----- The whole run -----

  datatype Generation = Generated(interfaces: Interfaces) | Failed(error: GenError) | GeneratorPanic

  function Generate(ast: ModuleAst): Generation {
    var api := DefaultExportApi();
    match RegisterAll(Start(api.types), ast.records)
    case Err(e) => Failed(e)
    case Ok(t) =>
      match ValidateRecords(t.types, AsU64(t.unresolved))
      case Rejected(e) => Failed(e)
      case Panicked => GeneratorPanic
      case Accepted =>
        match AddFunctions(t.ids, api.(types := t.types), ast.functions)
        case None => Failed(RecordNotFound)
        case Some(exported) =>
          match AddExternMods(t.ids, exported, ast.externMods)
          case None => Failed(RecordNotFound)
          case Some(interfaces) => Generated(interfaces)
  }

  /** The record ids a successful run worked with. */
  function RecordIds(ast: ModuleAst): map<string, nat> {
    match RegisterAll(Start(DefaultExportApi().types), ast.records)
    case Err(_) => map[]
    case Ok(t) => t.ids
  }

  /** The type table after the record phase. */
  function RecordSlots(ast: ModuleAst): seq<AstType> {
    match RegisterAll(Start(DefaultExportApi().types), ast.records)
    case Err(_) => []
    case Ok(t) => t.types
  }
}
