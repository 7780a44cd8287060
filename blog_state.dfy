/** The workflow state (BlogState): a mapping from key to value that every
    node reads and whose keys a node's returned update overwrites. */
module BlogState {

  /** A state value: a string (topic, current_language) or a record of string
      fields (the blog, with title and content). */
  datatype Value = Text(text: string) | Record(fields: map<string, string>)

  type State = map<string, Value>

  const TopicKey := "topic"
  const LanguageKey := "current_language"
  const BlogKey := "blog"
  const TitleKey := "title"
  const ContentKey := "content"

  /** Shallow overwrite: the keys an update returns replace the old values,
      every other key keeps its value. */
  function Merge(state: State, update: State): (r: State)
    ensures r.Keys == state.Keys + update.Keys
    ensures forall k :: k in update ==> r[k] == update[k]
    ensures forall k :: k in state && k !in update ==> r[k] == state[k]
  {
    state + update
  }
}
