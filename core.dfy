/** The expression type of the `stack_core` crate, as far as the compiler and
    the scope module observe it, and the set of intrinsic operations the
    virtual machine dispatches on. */
module Core {

  import opened Numerics

  /** `stack_core`'s `ExprKind`. Only the variant names are observed by the
      compiler; payloads the compiler never inspects are kept as simple as
      the recursion allows. */
  datatype ExprKind =
    | Nil
    | Boolean(b: bool)
    | Integer(i: I64)
    | Float(bits: bv64)
    | String(s: string)
    | Symbol(name: string)
    | Lazy(inner: ExprKind)
    | List(items: seq<ExprKind>)
    | Record(fields: map<string, ExprKind>)
    | Function(body: seq<ExprKind>)
    | SExpr(call: string, args: seq<ExprKind>)
    | Underscore

  /** The operations the virtual machine knows by name. */
  datatype Intrinsic =
    | Add | Sub | Mul | Div | Rem
    | Eq | Ne | Lt | Le | Gt | Ge
    | Or | And | Not
    | Assert
    | Drop | Dupe | Swap | Rot
    | Len | Nth | Split | Concat | Push | Pop | Insert | Prop | Has | Remove | Keys | Values
    | Cast | TypeOf
    | Lazy | If | Halt | Call
    | Let | Def | Set | Get
    | Debug | Print | Pretty
    | Recur | OrElse | Import
}
