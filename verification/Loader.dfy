/** Loading a module's interface tables: the indexes built over them, the function table of an
    instance, the import adapters put into the linker and the interface read back. */
module Loader {
  import opened Wrappers
  import opened ITypes
  import opened ItAst
  import opened Collections

  datatype LoadError =
    | NoSuchExport(name: string) | NoSuchModule(name: string) | NoSuchFunction(name: string)
    | NoSuchType(id: int) | NotAFunctionType(id: int) | NoSuchAdapter(adapterType: nat)

  datatype ImportName = ImportName(namespace: string, name: string)

  /** MITInterfaces: the tables with their indexes. */
  datatype MITInterfaces = MITInterfaces(
    types: seq<AstType>,
    imports: seq<Import>,
    coreTypeToImports: map<nat, seq<ImportName>>,
    adapters: map<nat, seq<Instruction>>,
    exports: seq<Export>,
    coreTypeToExports: map<nat, seq<string>>,
    adapterTypeToCore: map<nat, seq<nat>>,
    coreTypeToAdapter: map<nat, seq<nat>>)

  function ImportPairs(interfaces: Interfaces): seq<(nat, ImportName)> {
    seq(|interfaces.imports|, i requires 0 <= i < |interfaces.imports| =>
      (interfaces.imports[i].functionType, ImportName(interfaces.imports[i].namespace, interfaces.imports[i].name)))
  }

  function AdapterPairs(interfaces: Interfaces): seq<(nat, seq<Instruction>)> {
    seq(|interfaces.adapters|, i requires 0 <= i < |interfaces.adapters| =>
      (interfaces.adapters[i].functionType, interfaces.adapters[i].instructions))
  }

  function ExportPairs(interfaces: Interfaces): seq<(nat, string)> {
    seq(|interfaces.exports|, i requires 0 <= i < |interfaces.exports| =>
      (interfaces.exports[i].functionType, interfaces.exports[i].name))
  }

  function AdapterToCorePairs(interfaces: Interfaces): seq<(nat, nat)> {
    seq(|interfaces.implementations|, i requires 0 <= i < |interfaces.implementations| =>
      (interfaces.implementations[i].adapterFunctionType, interfaces.implementations[i].coreFunctionType))
  }

  function CoreToAdapterPairs(interfaces: Interfaces): seq<(nat, nat)> {
    seq(|interfaces.implementations|, i requires 0 <= i < |interfaces.implementations| =>
      (interfaces.implementations[i].coreFunctionType, interfaces.implementations[i].adapterFunctionType))
  }

  function NewMIT(interfaces: Interfaces): MITInterfaces {
    MITInterfaces(
      interfaces.types,
      interfaces.imports, MultiMapOf(ImportPairs(interfaces)),
      HashMapOf(AdapterPairs(interfaces)),
      interfaces.exports, MultiMapOf(ExportPairs(interfaces)),
      MultiMapOf(AdapterToCorePairs(interfaces)), MultiMapOf(CoreToAdapterPairs(interfaces)))
  }

  function FunctionTypeAt(mit: MITInterfaces, id: int): Result<AstType, LoadError> {
    if !(0 <= id < |mit.types|) then Err(NoSuchType(id))
    else if mit.types[id].Record? then Err(NotAFunctionType(id))
    else Ok(mit.types[id])
  }

  // ----- The function table of an instance -----

  /** What `call-core` can reach: a function the Wasm instance exports, or one exported by another
      module. `C` is the type of other modules' callables. */
  datatype WitFunction<C> =
    | FromExport(name: string)
    | FromImport(importName: string, arguments: seq<FunctionArg>, outputs: seq<IType>, callable: C)

  /** The callables a loaded module offers, by name. */
  type Modules<C> = map<string, map<string, C>>

  function ExtractRawExports<C>(exports: seq<Export>, wasmExports: set<string>): Result<map<nat, WitFunction<C>>, LoadError> {
    if exports == [] then Ok(map[])
    else
      match ExtractRawExports<C>(exports[..|exports| - 1], wasmExports)
      case Err(e) => Err(e)
      case Ok(funcs) =>
        var last := exports[|exports| - 1];
        if last.name in wasmExports then Ok(funcs[|exports| - 1 := FromExport(last.name)])
        else Err(NoSuchExport(last.name))
  }

  /** The imports that have an adapter behind their core type. */
  function ImplementedImports(mit: MITInterfaces, imports: seq<Import>): seq<Import> {
    if imports == [] then []
    else
      var last := imports[|imports| - 1];
      ImplementedImports(mit, imports[..|imports| - 1]) +
      (if last.functionType in mit.coreTypeToAdapter then [last] else [])
  }

  function FromImportDecl<C>(mit: MITInterfaces, modules: Modules<C>, decl: Import): Result<WitFunction<C>, LoadError> {
    if decl.namespace !in modules then Err(NoSuchModule(decl.namespace))
    else
      match FunctionTypeAt(mit, decl.functionType - 2)
      case Err(e) => Err(e)
      case Ok(ty) =>
        if decl.name !in modules[decl.namespace] then Err(NoSuchFunction(decl.name))
        else if ty.Function? then
          Ok(FromImport(decl.name, ty.arguments, ty.outputTypes, modules[decl.namespace][decl.name]))
        else Err(NotAFunctionType(decl.functionType - 2))
  }

  function NumberImports<C>(mit: MITInterfaces, modules: Modules<C>, imports: seq<Import>, startIndex: nat)
    : Result<map<nat, WitFunction<C>>, LoadError>
  {
    if imports == [] then Ok(map[])
    else
      match NumberImports(mit, modules, imports[..|imports| - 1], startIndex)
      case Err(e) => Err(e)
      case Ok(funcs) =>
        match FromImportDecl(mit, modules, imports[|imports| - 1])
        case Err(e) => Err(e)
        case Ok(func) => Ok(funcs[startIndex + |imports| - 1 := func])
  }

  /** ITInstance::new: raw exports first, implemented imports numbered after them. */
  function NewInstance<C>(mit: MITInterfaces, wasmExports: set<string>, modules: Modules<C>)
    : Result<map<nat, WitFunction<C>>, LoadError>
  {
    match ExtractRawExports<C>(mit.exports, wasmExports)
    case Err(e) => Err(e)
    case Ok(exports) =>
      match NumberImports(mit, modules, ImplementedImports(mit, mit.imports), |exports|)
      case Err(e) => Err(e)
      case Ok(imports) => Ok(exports + imports)
  }

  // ----- The interface read back (export_it_functions) -----

  datatype IFunctionSignature =
    IFunctionSignature(name: string, arguments: seq<FunctionArg>, outputs: seq<IType>, adapterFunctionType: nat)

  /** implementations(): an adapter type with the first core type it implements. */
  function CoreOf(mit: MITInterfaces, adapterType: nat): (r: nat)
    requires adapterType in mit.adapterTypeToCore && mit.adapterTypeToCore[adapterType] != []
  {
    mit.adapterTypeToCore[adapterType][0]
  }

  datatype ExportDescriptor = ExportDescriptor(adapterFunctionType: nat, name: string)

  function DescriptorsFor(mit: MITInterfaces, adapterType: nat): seq<ExportDescriptor> {
    if adapterType !in mit.adapterTypeToCore || mit.adapterTypeToCore[adapterType] == [] then []
    else
      var core := CoreOf(mit, adapterType);
      if core !in mit.coreTypeToExports then []
      else
        var names := mit.coreTypeToExports[core];
        seq(|names|, i requires 0 <= i < |names| => ExportDescriptor(adapterType, names[i]))
  }

  function DescriptorsByKey(mit: MITInterfaces): nat -> seq<ExportDescriptor> {
    (k: nat) => DescriptorsFor(mit, k)
  }

  /** get_export_funcs_descriptors; `order` is the order in which the hash map is iterated. */
  function ExportDescriptors(mit: MITInterfaces, order: seq<nat>): seq<ExportDescriptor> {
    FlatMap(order, DescriptorsByKey(mit))
  }

  function SignatureOf(mit: MITInterfaces, descriptor: ExportDescriptor): Result<IFunctionSignature, LoadError> {
    match FunctionTypeAt(mit, descriptor.adapterFunctionType)
    case Err(e) => Err(e)
    case Ok(Function(arguments, outputs)) =>
      Ok(IFunctionSignature(descriptor.name, arguments, outputs, descriptor.adapterFunctionType))
    case Ok(_) => Err(NotAFunctionType(descriptor.adapterFunctionType))
  }

  function Signatures(mit: MITInterfaces, descriptors: seq<ExportDescriptor>): Result<seq<IFunctionSignature>, LoadError> {
    if descriptors == [] then Ok([])
    else
      match (SignatureOf(mit, descriptors[0]), Signatures(mit, descriptors[1..]))
      case (Ok(s), Ok(rest)) => Ok([s] + rest)
      case (Err(e), _) => Err(e)
      case (_, Err(e)) => Err(e)
  }

  /** get_export_funcs. */
  function ExportFuncs(mit: MITInterfaces, order: seq<nat>): Result<seq<IFunctionSignature>, LoadError> {
    Signatures(mit, ExportDescriptors(mit, order))
  }

  // ----- Import adapters put into the linker (add_wit_imports) -----

  /** A function registered in the linker: raw signature and adapter to run. */
  datatype LinkedImport =
    LinkedImport(namespace: string, name: string, params: seq<WType>, results: seq<WType>, code: seq<Instruction>)

  /** itype_to_wtype; None is `unimplemented!()`. */
  function ITypeToWType(ty: IType): Option<WType> {
    match ty
    case S8 | S16 | S32 | U8 | U16 | U32 | I32 => Some(WType.I32)
    case S64 | U64 | I64 => Some(WType.I64)
    case F32 => Some(WType.F32)
    case F64 => Some(WType.F64)
    case _ => None
  }

  function WTypes(types: seq<IType>): Option<seq<WType>> {
    if types == [] then Some([])
    else
      match (ITypeToWType(types[0]), WTypes(types[1..]))
      case (Some(t), Some(rest)) => Some([t] + rest)
      case _ => None
  }

  function TypesOf(args: seq<FunctionArg>): seq<IType> {
    seq(|args|, i requires 0 <= i < |args| => args[i].ty)
  }

  /** None stands for an error or an `unimplemented!()`. */
  function LinkOne(mit: MITInterfaces, adapterType: nat, name: ImportName): Option<LinkedImport> {
    if adapterType !in mit.adapters then None
    else
      match FunctionTypeAt(mit, adapterType)
      case Ok(Function(arguments, outputs)) =>
        (match (WTypes(TypesOf(arguments)), WTypes(outputs))
         case (Some(params), Some(results)) =>
           Some(LinkedImport(name.namespace, name.name, params, results, mit.adapters[adapterType]))
         case _ => None)
      case _ => None
  }

  function LinksFor(mit: MITInterfaces, adapterType: nat): seq<Option<LinkedImport>> {
    if adapterType !in mit.adapterTypeToCore || mit.adapterTypeToCore[adapterType] == [] then []
    else
      var core := CoreOf(mit, adapterType);
      if core !in mit.coreTypeToImports then []
      else
        var names := mit.coreTypeToImports[core];
        seq(|names|, i requires 0 <= i < |names| => LinkOne(mit, adapterType, names[i]))
  }

  function LinksByKey(mit: MITInterfaces): nat -> seq<Option<LinkedImport>> {
    (k: nat) => LinksFor(mit, k)
  }

  /** The functions add_wit_imports registers, with the hash map iterated in `order`. */
  function WitImports(mit: MITInterfaces, order: seq<nat>): seq<Option<LinkedImport>> {
    FlatMap(order, LinksByKey(mit))
  }
}
