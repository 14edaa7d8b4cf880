/** The part of a file descriptor that ordering, naming and tool building use. */
module ProtoFiles {
  import opened Bytes

  /** `options` are the encoded bytes of the method's options. */
  datatype Method = Method(name: string, clientStreaming: bool, serverStreaming: bool, options: seq<Byte>)

  /** The package is a list of its components; the empty package has none. */
  datatype Service = Service(pkg: seq<string>, name: string, methods: seq<Method>)

  /** `packages` are the package of the file and the packages around it, and
      `declared` the full names that the file declares. */
  datatype FileProto = FileProto(
    path: string, deps: seq<string>, packages: set<string>, declared: set<string>, services: seq<Service>)

  /** The files cannot be in one registry: they declare the same name, or one
      declares a name that is a package of the other. */
  predicate NameConflict(f: FileProto, g: FileProto) {
    || f.declared * g.declared != {}
    || f.declared * g.packages != {}
    || f.packages * g.declared != {}
  }

  function Paths(files: seq<FileProto>): seq<string> {
    seq(|files|, i requires 0 <= i < |files| => files[i].path)
  }
}
