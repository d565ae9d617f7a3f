/**
 * The resource loader the shader layer asks for shader source. Its code is
 * not part of this model: what it answers for a name is an oracle fixed when
 * the loader is made, and a ghost log records which names were asked for, so
 * that contracts can say which resources an operation loads.
 */
module Resources {
  import opened Wrappers

  /** Whatever the loader reports when it cannot produce a resource. */
  datatype ResourceError = ResourceError(description: string)

  class Loader {
    /** The answer of `load_cstring` for every resource name. */
    const answer: string -> Result<string, ResourceError>
    /** Every name passed to `load_cstring`, oldest first. */
    ghost var requested: seq<string>

    constructor (answer: string -> Result<string, ResourceError>)
      ensures this.answer == answer && requested == []
    {
      this.answer := answer;
      requested := [];
    }

    method LoadCString(name: string) returns (r: Result<string, ResourceError>)
      modifies this`requested
      ensures r == answer(name)
      ensures requested == old(requested) + [name]
    {
      r := answer(name);
      requested := requested + [name];
    }
  }
}
