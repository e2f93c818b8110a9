/** di.go: the application's keyed store of dependencies. */
module Injection {
  import opened Common

  class DI {
    var data: map<string, Any>

    /** `NewDI()`: an empty store. */
    constructor ()
      ensures data == map[]
    {
      data := map[];
    }

    /** `Get(name)`: `nil` for the empty name and for a name never set. */
    function Get(name: string): (v: Any)
      reads this
      ensures name == "" || name !in data ==> v == Nil
      ensures v != Nil ==> name in data && data[name] == v
    {
      if name == "" then Nil else if name in data then data[name] else Nil
    }

    /** `Set(name, v)`: ignored for the empty name; otherwise `Get(name)`
        returns `v` from now on and every other name keeps its value. */
    method Set(name: string, v: Any)
      modifies this
      ensures name == "" ==> data == old(data)
      ensures name != "" ==> data == old(data)[name := v] && Get(name) == v
      ensures forall k :: k != name ==> Get(k) == old(Get(k))
    {
      if name == "" {
        return;
      }
      data := data[name := v];
    }
  }
}
