/** The record both native backends return for every controllable entity, a
    system output or one application's stream, and that the Electron main
    process caches by id; and how either backend's set operations end. */
module Sessions {
  import opened Wrappers
  import opened Text

  /** `volume` is a percentage of the platform's full scale */
  datatype AudioSession = AudioSession(id: string, name: string, volume: real, muted: bool)

  /** How a set operation of either backend ends: it returns its result with
      the request it made to the audio system, if any, or lets `std::stoul`'s
      exception escape */
  datatype SetOutcome<+R> = Returned(ok: bool, request: Option<R>) | Threw(error: StoulError)
}
