// JSON documents as trees. An object's keys are unique and matched exactly; a
// number is the value its decoder gives.
module JsonTree {
  import opened Wrappers

  datatype Json =
    | Null
    | Bool(b: bool)
    | Num(n: real)
    | Str(s: string)
    | Arr(items: seq<Json>)
    | Obj(fields: map<string, Json>)

  // json.Unmarshal into a string, starting from "": null leaves it, any other
  // kind is an error that also leaves it.
  function DecodeString(j: Json): string {
    if j.Str? then j.s else ""
  }

  // json.Unmarshal into a []string with its error ignored: an element that is
  // not a string becomes "".
  function DecodeStrings(j: Option<Json>): (r: seq<string>)
    ensures j.Some? && j.value.Arr? ==> |r| == |j.value.items|
                                        && forall i :: 0 <= i < |r| ==> r[i] == DecodeString(j.value.items[i])
    ensures !(j.Some? && j.value.Arr?) ==> r == []
  {
    if j.Some? && j.value.Arr?
        then seq(|j.value.items|, i requires 0 <= i < |j.value.items| => DecodeString(j.value.items[i]))
    else []
  }

  function EncodeStrings(ss: seq<string>): Json {
    Arr(seq(|ss|, i requires 0 <= i < |ss| => Str(ss[i])))
  }

  function DecodeObject(j: Option<Json>): map<string, Json> {
    if j.Some? && j.value.Obj? then j.value.fields else map[]
  }
}
