# pass_json argument remapping, modelled in Dafny

This project models the `pass_json` decorator of the python-decorator demo (mydecorator.py).
The decorator wraps a Flask request handler. On every request it takes the parsed JSON body,
turns it into the handler's arguments, calls the handler and returns the result. It has three
modes:

- **List mode** (`pass_json("key1", "key2")`): the handler gets the positional arguments
  `[body[key1], body[key2], ...]` in the order the keys were written. List mode wins whenever
  keys are given, and any keyword rules are then ignored.
- **Rename mode** (`pass_json(family="key2")`): the body is copied. Then each keyword rule
  `target="source"` runs in the order written: it pops the entry under `source` and stores
  its value under `target`. The handler gets the result as keyword arguments.
- **Pass-through** (`pass_json()`): the copy is passed unchanged as keyword arguments.

A key that is looked up and not found raises `KeyError`, and the handler is not called.

Files:

- `remap_spec.dfy`, module `RemapSpec`: the specification. `Result` models a value or the
  key whose lookup failed. `Args` holds the positional and keyword arguments. `Rule` is one
  keyword rule. The functions are `Positional` (list mode), `MoveKey` (one pop-and-store
  step), `Renamed` (the rules in order) and `Remap` (the whole remapping). The lemmas
  state what these functions guarantee.
- `pass_json.dfy`, module `PassJson`: `Wrapper` is the decorator's `wrapper` written as its
  loops: it appends to the positional list, copies the body key by key, and moves entries
  rule by rule. It is proved to compute `Remap` and to call the handler only when `Remap`
  succeeds.
- `routes.dfy`, module `Routes`: the three decorator uses in app.py, each as a lemma about
  the arguments that its documented request body produces.

Modelling choices:

- The request body `request.json` is an input `map<string, V>`, where the JSON value type
  `V` is generic.
- The keyword rules `**keyvals` are a `seq<Rule>` kept in the order written, because that
  order decides which rule fails first.
- Dafny maps are values, so the wrapper cannot modify the request body. It works on its own
  copy `argsDict`, as the source does.
- The handler is a function parameter `func: Args<V> -> R`.

## Model

| member | source | states |
|---|---|---|
| `RemapSpec.Positional` | mydecorator.py:42-46 | List mode yields exactly one argument per key. A failure names a key that is in the key list and absent from the body. |
| `RemapSpec.PositionalSucceeds` | mydecorator.py:42-46 | List mode succeeds exactly when every key is in the body. The i-th argument is then the body's value under the i-th key, in the caller's order. |
| `RemapSpec.PositionalFirstMissing` | mydecorator.py:45-46 | When the keys before position i are present and key i is absent, list mode fails on key i. So the error names the first absent key. |
| `RemapSpec.PositionalFailure` | mydecorator.py:45-46 | Every list-mode failure names some key i that is absent from the body, and every key before i is present. |
| `RemapSpec.MoveKey` | mydecorator.py:54-55 | One rename step. The target holds the source's old value, and any previous entry under the target is overwritten. The source is gone unless it equals the target, in which case the map is unchanged. Every other key keeps its presence and its value. |
| `RemapSpec.Renamed` | mydecorator.py:53-55 | A failing rename names the source of one of the rules. A successful rename has no keys except the body's keys and the rules' targets. |
| `RemapSpec.RenamedSplit` | mydecorator.py:53-55 | Rules run in sequence against the working copy. Running `first + second` is the same as running `first` and then, if that succeeded, running `second` on its result. |
| `RemapSpec.RenamedStopsAtMissingSource` | mydecorator.py:53-55 | Suppose the rules before rule i succeed, and rule i's source is absent from the working copy at that point. Then the whole rename fails with a lookup error on that source. |
| `RemapSpec.RenamedUntouched` | mydecorator.py:49-55 | A key that no rule reads or writes keeps its presence and its value from the body. |
| `RemapSpec.RenamedFailsOnGoneSource` | mydecorator.py:53-55 | Suppose a key is absent from the working copy, no earlier rule writes it, and rule n reads it. Then the rename fails. |
| `RemapSpec.SharedSourceFails` | mydecorator.py:53-55 | Suppose rules i < j read the same source, rule i moves it to a different name, and no rule in between writes it back. Then the rename fails. The source's consumed-key behaviour is kept as written. |
| `RemapSpec.Remap` | mydecorator.py:36-55 | The arguments are one-sided: either no positional arguments or no keyword arguments. List mode has no keyword arguments and one positional argument per key. Rename and pass-through modes have no positional arguments. With no keys and no rules, the body is passed through unchanged as keyword arguments. |
| `RemapSpec.ListMode` | mydecorator.py:39-46 | With keys given, the rules are ignored. The call succeeds exactly when every key is present, and then passes `[body[k1], ..., body[kn]]` in order with no keyword arguments. Otherwise it fails on the first absent key. |
| `RemapSpec.SingleRename` | mydecorator.py:47-55 | With one rule `target="source"` and the source present, the target gets the source's value and the source is removed unless it is the target. Every other key is unchanged and there are no positional arguments. With the source absent, the call fails on the source. |
| `PassJson.Wrapper` | mydecorator.py:34-63 | The loops compute exactly `Remap`. If it fails, the wrapper returns that lookup error and does not apply the handler. Otherwise the result is the handler applied to the computed arguments. |
| `Routes.Hello` | app.py:7-11 | `/hello` with `pass_json()` passes `{"name", "family"}` through unchanged. |
| `Routes.SeeYou` | app.py:14-18 | `/seeyou` with `pass_json("key1", "key2")` turns `{"key1": n, "key2": f}` into the positional arguments `[n, f]`. |
| `Routes.SeeYouMissingKey` | app.py:14-18 | `/seeyou` with a body that lacks `key2` fails on `key2`. |
| `Routes.ThankYou` | app.py:21-25 | `/thankyou` with `pass_json(family="key2")` turns `{"name": n, "key2": f}` into the keyword arguments `{"name": n, "family": f}`. |

## Left out

- Flask's `request` object and JSON body parsing (mydecorator.py:2). The parsed body is an input map, and a missing or malformed body is the framework's concern.
- The `print` diagnostics of the arguments (mydecorator.py:58-59). They are output only.
- Serialising the handler's result with `json.dumps` and the fixed response tuple, with status 200 and `Content-Type: application/json` (mydecorator.py:66). The model returns the handler's result as is.
- The reassignment of `wrapper.__name__` (mydecorator.py:69). It is runtime plumbing for Flask's endpoint names.
- Python's binding of `*args` / `**kwargs` to the handler's parameter names (mydecorator.py:63). This includes the `TypeError` raised when the arguments do not fit the handler's signature. The handler is a total function of `Args`.
- PassJson.Wrapper: the order of the keyword arguments is not modelled. The keyword mapping is a Dafny map, so it loses dict insertion order, including a renamed key moving to the end. The cloning loop therefore visits the body's keys in an unspecified order, which gives the same map.
- The wrapper's own `*args, **kwargs` (mydecorator.py:34). Flask passes none to these POST routes, and the source ignores them.
- Keyword rule targets are distinct in Python, because they are `**kwargs` names. The model does not require distinct targets, and no stated property depends on it.
- app.py's handlers, which format a message string with f-strings, and its route registration. The `Routes` lemmas cover only the remapping each route uses.
