// `Bounce`: the translator that `config.ENCODE` holds while no encrypted ssh
// profile is mounted. Every operation hands its input back.

module Bounce {
  import opened Results
  import Decoding

  /** `self.chroot`. */
  const Chroot: string := "/"

  /** `Bounce.path`. */
  function Path(path: string): (r: string)
    ensures r == path
  {
    path
  }

  /** `Bounce.exclude`: every pattern is translatable and comes back as given. */
  function Exclude(path: string): (r: Option<string>)
    ensures r == Some(path)
  {
    Some(path)
  }

  /** `Bounce.include`. */
  function Include(path: string): (r: string)
    ensures r == path
  {
    path
  }

  /** `Bounce.remote`. */
  function Remote(path: string): (r: string)
    ensures r == path
  {
    path
  }

  /** Bounce is what `Decode.path` does with a tool that answers each query with the
      query itself, for every one-line path. */
  lemma BounceIsEchoDecode(tool: string -> string, path: string)
    requires Decoding.Echo(tool) && '\n' !in path
    ensures Decoding.One(tool, path).text == Path(path)
  {
    Decoding.OneEcho(tool, path);
  }
}
