/** The identity record of one buddy character, loaded from the buddy directory file. */
module Buddies {

  /** `id` is the routing identifier ("leo"), `name` the display label, `avatar` the image resource name. */
  datatype Buddy = Buddy(id: string, name: string, avatar: string)
}
