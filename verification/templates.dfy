/** The part of Python's `string.Template` the generator uses: a template is
    given already split into literal text and `$name` placeholders, and
    `substitute` fills every placeholder from a mapping, failing on the first
    placeholder whose name the mapping lacks (it is `substitute`, not the
    lenient `safe_substitute`). */
module Templates {
  import opened Text

  /** The two ways rendering can fail: a template that was not loaded (an
      `AttributeError` on the namespace of templates) and a placeholder with no
      binding (a `KeyError` out of `substitute`). */
  datatype Error = MissingFragment(name: string) | MissingBinding(key: string)

  datatype Result<+T> = Ok(value: T) | Err(error: Error) {
    predicate IsFailure() {
      Err?
    }

    function PropagateFailure<U>(): Result<U>
      requires Err?
    {
      Err(error)
    }

    function Extract(): T
      requires Ok?
    {
      value
    }
  }

  /** A binding's value: author text, or the one number the generator binds. */
  datatype Value = Text(s: string) | Count(n: nat)

  datatype Piece = Literal(text: string) | Placeholder(key: string)

  type Template = seq<Piece>

  type Bindings = map<string, Value>

  /** The templates loaded by name. */
  type Fragments = map<string, Template>

  /** `str(value)`, which `substitute` applies to every value it inserts. */
  function Show(v: Value): string
  {
    match v
    case Text(s) => s
    case Count(n) => Decimal(n)
  }

  /** Every placeholder of `t` names one of `keys`. */
  predicate Covers(t: Template, keys: set<string>) {
    forall i :: 0 <= i < |t| && t[i].Placeholder? ==> t[i].key in keys
  }

  /** The keys of the placeholders of `t`. */
  function Keys(t: Template): set<string>
  {
    set i | 0 <= i < |t| && t[i].Placeholder? :: t[i].key
  }

  /** `t.substitute(b)`: the pieces in order, each placeholder replaced by
      `str` of its value. It succeeds exactly when every placeholder is bound. */
  function Substitute(t: Template, b: Bindings): (r: Result<string>)
    ensures r.Ok? <==> Covers(t, b.Keys)
  {
    if t == [] then Ok([])
    else
      var head :- match t[0]
        case Literal(text) => Ok(text)
        case Placeholder(key) => if key in b then Ok(Show(b[key])) else Err(MissingBinding(key));
      var rest :- Substitute(t[1..], b);
      assert forall i :: 1 <= i < |t| ==> t[1..][i - 1] == t[i];
      Ok(head + rest)
  }

  /** On failure the error names the first placeholder, in template order,
      that has no binding. */
  lemma {:induction false} SubstituteFirstMissing(t: Template, b: Bindings)
    requires Substitute(t, b).Err?
    ensures exists i :: (0 <= i < |t| && t[i].Placeholder? && t[i].key !in b
                         && Substitute(t, b).error == MissingBinding(t[i].key) && Covers(t[..i], b.Keys))
  {
    if t[0].Placeholder? && t[0].key !in b {
      assert t[..0] == [];
    } else {
      SubstituteFirstMissing(t[1..], b);
      var j :| 0 <= j < |t[1..]| && t[1..][j].Placeholder? && t[1..][j].key !in b
        && Substitute(t[1..], b).error == MissingBinding(t[1..][j].key) && Covers(t[1..][..j], b.Keys);
      assert t[1..][j] == t[j + 1];
      assert t[..j + 1] == [t[0]] + t[1..][..j];
    }
  }

  /** Only the bindings of the template's own placeholders matter: extra keys
      are ignored, and two mappings that agree on those keys give the same
      result, error included. */
  lemma {:induction false} SubstituteLocal(t: Template, b1: Bindings, b2: Bindings)
    requires forall k :: k in Keys(t) ==> (k in b1 <==> k in b2) && (k in b1 ==> b1[k] == b2[k])
    ensures Substitute(t, b1) == Substitute(t, b2)
  {
    if t != [] {
      assert Keys(t[1..]) <= Keys(t) by {
        forall k | k in Keys(t[1..]) ensures k in Keys(t) {
          var i :| 0 <= i < |t[1..]| && t[1..][i].Placeholder? && t[1..][i].key == k;
          assert t[i + 1] == t[1..][i];
        }
      }
      if t[0].Placeholder? { assert t[0].key in Keys(t); }
      SubstituteLocal(t[1..], b1, b2);
    }
  }

  /** The literal text of a template, its placeholders left out. */
  function LiteralText(t: Template): string
  {
    if t == [] then [] else (if t[0].Literal? then t[0].text else []) + LiteralText(t[1..])
  }

  /** A template without placeholders renders as its literal text, whatever the
      bindings. */
  lemma {:induction false} SubstituteNoPlaceholders(t: Template, b: Bindings)
    requires forall i :: 0 <= i < |t| ==> t[i].Literal?
    ensures Substitute(t, b) == Ok(LiteralText(t))
  {
    if t != [] {
      assert forall i :: 0 <= i < |t[1..]| ==> t[1..][i] == t[i + 1];
      SubstituteNoPlaceholders(t[1..], b);
    }
  }

  /** Looks up a loaded template by name, as the attribute access
      `templates.<name>` does. */
  function Fragment(fs: Fragments, name: string): Result<Template>
  {
    if name in fs then Ok(fs[name]) else Err(MissingFragment(name))
  }

  /** Applies `f` to each element in order and collects the results, stopping
      at the first failure, as `'\n'.join(f(x) for x in xs)` does before it
      joins anything. */
  function MapAll<T>(f: T -> Result<string>, xs: seq<T>): Result<seq<string>>
  {
    if xs == [] then Ok([])
    else
      var y :- f(xs[0]);
      var ys :- MapAll(f, xs[1..]);
      Ok([y] + ys)
  }

  /** `MapAll` succeeds exactly when `f` succeeds on every element; then it
      gives one result per element, in the elements' order. */
  lemma {:induction false} MapAllOk<T>(f: T -> Result<string>, xs: seq<T>)
    ensures MapAll(f, xs).Ok? <==> forall i :: 0 <= i < |xs| ==> f(xs[i]).Ok?
    ensures MapAll(f, xs).Ok? ==>
              |MapAll(f, xs).value| == |xs|
              && forall i :: 0 <= i < |xs| ==> MapAll(f, xs).value[i] == f(xs[i]).value
  {
    if xs != [] {
      MapAllOk(f, xs[1..]);
      assert forall i :: 1 <= i < |xs| ==> xs[1..][i - 1] == xs[i];
    }
  }

  /** On failure `MapAll` reports the error of the first element `f` fails on. */
  lemma {:induction false} MapAllFirstError<T>(f: T -> Result<string>, xs: seq<T>)
    requires MapAll(f, xs).Err?
    ensures exists i :: (0 <= i < |xs| && f(xs[i]).Err? && MapAll(f, xs).error == f(xs[i]).error
                         && forall j :: 0 <= j < i ==> f(xs[j]).Ok?)
  {
    if f(xs[0]).Ok? {
      MapAllFirstError(f, xs[1..]);
      var i :| 0 <= i < |xs[1..]| && f(xs[1..][i]).Err? && MapAll(f, xs[1..]).error == f(xs[1..][i]).error
        && forall j :: 0 <= j < i ==> f(xs[1..][j]).Ok?;
      assert xs[1..][i] == xs[i + 1];
      assert forall j :: 1 <= j < i + 1 ==> xs[j] == xs[1..][j - 1];
    }
  }

  /** Appending one element appends its result. */
  lemma {:induction false} MapAllSnoc<T>(f: T -> Result<string>, xs: seq<T>, x: T)
    requires MapAll(f, xs).Ok? && f(x).Ok?
    ensures MapAll(f, xs + [x]) == Ok(MapAll(f, xs).value + [f(x).value])
  {
    if xs == [] {
      assert xs + [x] == [x];
      assert [x][1..] == [];
      assert MapAll(f, [x][1..]) == Ok([]);
      var v := f(x).value;
      assert MapAll(f, [x]) == Ok([v] + []);
      assert [v] + [] == [] + [v];
    } else {
      assert (xs + [x])[1..] == xs[1..] + [x];
      assert (xs + [x])[0] == xs[0];
      MapAllSnoc(f, xs[1..], x);
      var y, ys := f(xs[0]).value, MapAll(f, xs[1..]).value;
      assert [y] + (ys + [f(x).value]) == ([y] + ys) + [f(x).value];
    }
  }
}
