/** The exceptions the build pipeline raises, with the messages the caller sees. */
module Errors {
  import opened Wrappers

  /**
   * One constructor per failure the build can surface. The five marker errors
   * and the three not-found errors carry the program's own messages; the others
   * stand for Ruby exceptions that are not rescued inside the pipeline.
   */
  datatype BuildError =
    | BuilderNotFound(platform: string)
    | CoreNotFound(platform: string)
    | FactoryNotFound(ident: seq<byte>)
    | EvidenceKeyMarkerNotFound
    | ConfigKeyMarkerNotFound
    | SignatureMarkerNotFound
    | AgentIdMarkerNotFound
    | DemoMarkerNotFound
      /** Errno::EEXIST from `Dir.mkdir` on a workspace name already in use. */
    | DirectoryExists(path: string)
      /** Errno::ENOENT (or a TypeError for a missing workspace) from `File.open`. */
    | NoSuchFile(name: string)
      /** NoMethodError on nil: a stage run before the one that sets its input, or a factory without configs. */
    | NilReceiver(what: string)
      /** Whatever a platform's override of a later stage raises. */
    | StageError(stage: string, message: string)

  /** Renders a byte string one character per byte, as string interpolation shows a binary string. */
  function AsText(b: seq<byte>): (t: string)
    ensures |t| == |b|
    ensures forall i :: 0 <= i < |b| ==> t[i] as int == b[i] as int
  {
    seq(|b|, i requires 0 <= i < |b| => (b[i] as int) as char)
  }

  /**
   * The message of the exception that reaches the caller of `create`. The
   * program's own errors carry its texts; `DirectoryExists` follows the Ruby
   * runtime's `mkdir` message. The `NoSuchFile` and `NilReceiver` texts are
   * placeholders for the runtime's messages (which name the full path, and
   * the missing method and `NilClass`): the model only needs them to carry
   * the name.
   */
  function Message(e: BuildError): string
  {
    match e
    case BuilderNotFound(p) => "Builder for " + p + " not found"
    case CoreNotFound(p) => "Core for " + p + " not found"
    case FactoryNotFound(id) => "Factory " + AsText(id) + " not found"
    case EvidenceKeyMarkerNotFound => "Evidence key marker not found"
    case ConfigKeyMarkerNotFound => "Config key marker not found"
    case SignatureMarkerNotFound => "Signature marker not found"
    case AgentIdMarkerNotFound => "Agent ID marker not found"
    case DemoMarkerNotFound => "Demo marker not found"
    case DirectoryExists(p) => "File exists @ dir_s_mkdir - " + p
    case NoSuchFile(n) => "No such file or directory - " + n
    case NilReceiver(w) => "undefined method for nil: " + w
    case StageError(_, m) => m
  }

  /** The marker errors are told apart by their messages, so a caller knows which marker failed. */
  lemma MarkerMessagesDistinct(a: BuildError, b: BuildError)
    requires a.EvidenceKeyMarkerNotFound? || a.ConfigKeyMarkerNotFound? || a.SignatureMarkerNotFound?
             || a.AgentIdMarkerNotFound? || a.DemoMarkerNotFound?
    requires b.EvidenceKeyMarkerNotFound? || b.ConfigKeyMarkerNotFound? || b.SignatureMarkerNotFound?
             || b.AgentIdMarkerNotFound? || b.DemoMarkerNotFound?
    ensures Message(a) == Message(b) <==> a == b
  {
  }
}
