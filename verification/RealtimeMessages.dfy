/** Realtime messages, the users that receive them, and who may see what. */
module RealtimeMessages {

  datatype Role = Owner | Admin | Viewer {
    predicate IsAdmin() {
      Owner? || Admin?
    }
  }

  datatype UserProfile = UserProfile(id: int, role: Role, libraryIds: seq<int>) {
    predicate CanAccessLibrary(library: int) {
      role.IsAdmin() || library in libraryIds
    }
  }

  datatype Visibility = Public | AdminOnly | Library(libraryId: int) | User(userId: int) | Session(key: string)

  datatype Message = Message(event: string, data: string, visibility: Visibility) {
    predicate IsVisibleTo(user: UserProfile, sessionKey: string) {
      match visibility
      case Public => true
      case AdminOnly => user.role.IsAdmin()
      case Library(library) => user.CanAccessLibrary(library)
      case User(id) => user.id == id
      case Session(key) => key == sessionKey
    }
  }
}
